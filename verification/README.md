# z42: a verified model of the name server's core

z42 is an authoritative DNS server. Zones are edited through an API into a database, replicated into
Redis by an updater, and served from there by a resolver. This project models the parts whose
correctness is not visible from any one function, and proves what they promise:

- **Names** (`Names`, `Radix`, `Zones`). The server finds zones and locations by longest-prefix search
  over names written backwards, character by character. The theorem is that this agrees, for every list
  of locations and every query string, with the label-level definition of section 3.3.1 of RFC 4592.
- **Resolving** (`Records`, `Resolver`, `Flattening`, `Responses`, `ZoneReplies`, `Aname`,
  `Dnssec`, `Secured`, `Caa`, `CaaReplies`, over `Listing`). The query loop follows CNAMEs up to a bound and tells the truth about the name at the end of
  the walk: name errors, missing data, referrals and records are what the labels of that name and the store
  say (sections 2.1 and 2.2 of RFC 2308). Flattening CNAMEs gives the same response as not flattening them,
  up to the rewriting that flattening is (section 3.6.2 of RFC 1034), if and only if both modes judge every
  hop of the walk alike; chains of at most ten qualified targets always qualify. The CAA search climbs to the
  nearest set at or above the query (section 3 of RFC 8659), and that is what a response carries.
- **Replication** (`Keys`, `Redis`, `Replication`, `Database`). A log of events is applied exactly once,
  through crashes, failed commits and lost replies; and replaying the log of any history of edits leaves
  in Redis exactly the enabled part of the database. `RedisFollowsDatabase` puts the two together.
- **Worker pool** (`WorkerPool`). Interleaved atomic steps of queuers, dispatcher, deliverers and workers:
  who owns a worker's channel, where a job is, that every job is handled, and when Stop returns.
- **Rate limiter** (`RateLimit`). For which configurations the number of accepted calls is bounded in every
  window, for which nothing is ever refused, and for which forgetting idle keys cannot be noticed.
- **Address selection** (`Masks`, `Health`, `Geo`, `Selection`). Health status, geographic filters and the
  fair or rotating order of the addresses in an answer.
- **Cookies and signing** (`Cookies`, `Signing`). Sessions of a client that keeps presenting its latest
  cookie (section 4.3 of RFC 9018), and what a signed section looks like for every map iteration order.

Where the code does something that its purpose does not call for, the model does what the code does, and
a lemma says exactly when that shows:

- Flattening decides whether a CNAME target is in the zone before qualifying it, and leaves the zone one
  hop earlier than the other mode (`FlatteningPreservesMeaning`, `UnqualifiedTargetDiffers`,
  `EleventhHopDiffers`).
- A zone named "." is found for no query below it (`QualifiedHolds`).
- The `asn+country` filter brings records back that the AS filter had set aside, when the client's country
  is unknown (`UnknownCountryRevives`).
- The distance filter reads its distances by the wrong index unless the candidates come first; it is only
  called when they do (`InRangeIsPrefix`).
- A pool can hang in `Stop` exactly when it has more workers than its channel has room for (`StopTheorem`).
- The rate limiter does not bound the rate when a full bucket needs more than a minute to drain: the cache
  forgets it, and a client that waits a minute gets a second bucket (`WindowBoundTheorem`; with Rate 60 and
  Burst 100, `SixtyPerMinuteBreaks`). Above 60000 calls a minute it limits nothing at all, because the
  step is cut to whole milliseconds (`RefusesNothingTheorem`).
- With a negative burst a call that comes a step after a rejected one can be refused again
  (`RejectionHealsTheorem`).
- The health filter compares with the configured down count as it is, while the store negates a positive one
  on the items; with a positive count the filter can drop every address (`NeverEmptiesTheorem`).
- With DNSSEC, an apex query whose ANAME fails is answered with NOERROR instead of SERVFAIL
  (`ApexFailureHidden`, `DnssecDiffersAtApex`).
- Cookies stop working when the 32-bit timestamp wraps (`FreshIsAccepted`).
- An event that cannot be decoded stops replication for good (`UndecodableBlocks`).

What the environment decides is a parameter: the clock, the reads of the record store, the geo database,
the keyed hash, the signature of a record set, the fate of a command sent to Redis.

## Model

| member | source | states |
|---|---|---|
| `Names.KeyPrefixIsAncestor` | internal/types/zone.go:75-81 | for dot-free labels, character-wise prefix of reversed names is the same as whole-label ancestry |
| `Names.ReversedNameIsKey` | internal/types/zone.go:75-81 | the reversed name behind a dot is the concatenation of its reversed labels, each closed by a dot |
| `Names.LabelsOfText` | internal/types/zone.go:119-165 | cutting a name into labels inverts joining labels, so every path is the path of its own text |
| `Names.TextOfLabels` | internal/types/zone.go:119-165 | joining inverts cutting, for every string, so no two names share their labels |
| `Names.LabelsConcat` | internal/types/zone.go:125-125 | the labels of a name under a zone are the zone's labels followed by its own |
| `Zones.SwapEnds` | internal/types/zone.go:77-79 | the in-place swap loop leaves the array reversed |
| `Zones.ReverseName` | internal/types/zone.go:75-81 | returns the reversal of the name behind a dot |
| `Zones.InsertAncestors` | internal/types/zone.go:91-99 | adds exactly the dot-terminated prefixes of one reversed location, without touching entries that exist |
| `Zones.InsertLocations` | internal/types/zone.go:100-102 | gives every reversed location its own value and changes no other entry |
| `Zones.NewZone` | internal/types/zone.go:83-109 | the tree has one key per existing name, location or ancestor of one, valued exactly when the name is a location |
| `Zones.FindLocationIsLabelMatch` | internal/types/zone.go:119-165 | for every location list and every query string, the lookup equals the label-level match: exact, empty non-terminal, wildcard at the closest encloser only, encloser that is a location, or none |
| `Zones.InZoneQuery` | internal/types/zone.go:119-125 | a qualified query is matched on its labels above the zone name |
| `Zones.LoadZones` | internal/storage/data_handler.go:176-188 | the index holds exactly the listed zones, each under its reversed name |
| `Zones.FindZoneIsDeepest` | internal/storage/data_handler.go:201-208 | returns the deepest enabled zone whose labels end the query's labels, and "" exactly when no zone but one named "" does |
| `Zones.FindZoneIgnoresOrder` | internal/storage/data_handler.go:176-208 | lists with the same zones in another order, or with repetitions, find the same zone for every query |
| `Zones.QualifiedHolds` | internal/storage/data_handler.go:201-208 | for qualified names the index notion of containment is the DNS one, with the root zone as the one exception |
| `Records.ValuesListed` | internal/types/dns_types.go:170-484 | the records of a set are one for every value that is not blank, in the order of the values, with the owner, type and ttl of the set, the value itself or, for types that name a host, the value with a final dot |
| `Records.ListsOnce` | internal/types/dns_types.go:170-484 | that description fits only one list of records |
| `Listing.KeptSelects` | internal/dnssec/dnssec.go:61-69 | what picking elements in order means: the elements at exactly the positions that satisfy the condition, one after another |
| `Resolver.HopKeepsChain` | internal/resolver/handler.go:242-263 | a hop changes nothing but the answer: one more CNAME linked to the chain, or nothing when flattening |
| `Resolver.RequestContext.Pass` | internal/resolver/handler.go:134-441 | one pass of the loop advances the run by one step and keeps the chain linked |
| `Resolver.RequestContext.HandleRequest` | internal/resolver/handler.go:92-441 | computes the bounded run; the loop body runs once per head of the loop, at most 11 times on any zone graph; a query in no zone gives NotAuth |
| `Resolver.HeadsAreLinked` | internal/resolver/handler.go:119-146 | at every head of the loop the unflattened answer is a linked CNAME chain from the query name to the current one, as long as the hop count, the flattening answer is empty, and nothing else has changed |
| `Flattening.FinalRepliesAgree` | internal/resolver/handler.go:317-422 | the final records of both modes differ only in their owner |
| `Flattening.FinalsAgree` | internal/resolver/handler.go:317-441 | the last pass gives both modes the same rcode, authority and glue, and answers that flatten alike |
| `Flattening.StopsAgree` | internal/resolver/handler.go:136-441 | the same for every way a pass can end without a hop: outside, no match, empty non-terminal, referral, delegation, store error |
| `Flattening.FlattenFrom` | internal/resolver/handler.go:119-441 | from any hop count, chain and name on, the flattening run is the flattened plain run if and only if the rest of the walk is flattenable |
| `Flattening.FlatteningPreservesMeaning` | internal/resolver/handler.go:117-441 | with DNSSEC off and any of A, AAAA, TXT, NS, MX, SRV, PTR, TLSA or an unsupported type, the flattening zone's whole response is the flattened response of the plain zone if and only if the walk is flattenable |
| `Flattening.ShortChainsFlatten` | internal/resolver/handler.go:242-263 | qualified targets and at most ten hops make every walk flattenable |
| `Flattening.UnqualifiedTargetDiffers` | internal/resolver/handler.go:256-262 | a concrete zone whose apex alias lacks the final dot, on which the two modes differ |
| `Flattening.EleventhHopDiffers` | internal/resolver/handler.go:123-132 | a zone whose eleventh alias in a row leaves it, on which the two modes differ |
| `Flattening.UnflattenedIsFollowable` | internal/resolver/handler.go:119-441 | without flattening a client can walk every answer from the query name through linked CNAMEs to records of the last name |
| `Flattening.CycleOverflows` | internal/resolver/handler.go:122-132 | a query caught among names whose CNAMEs lead back among them ends, in both modes, in SERVFAIL with an empty answer |
| `Responses.MissingIsNoMatch` | internal/types/zone.go:119-165 | a name is missing, by its labels and the delegations above it, exactly when the lookup finds no match or an encloser that is not delegated |
| `Responses.FinalDenies` | internal/resolver/handler.go:317-441 | at a final location the SOA is in the authority section exactly when there are no final records; a name error comes only from an ANAME target, a failure exactly from a failed read or a failed ANAME target |
| `Responses.FinalServes` | internal/resolver/handler.go:322-432 | at a final location the final records list exactly the stored values, each as often and in the order in which they are stored, or the addresses of the ANAME target, with their ttl, under the owner |
| `Responses.SubDelegationRefers` | internal/resolver/handler.go:173-230 | a referral from the closest encloser lists exactly the values of the NS set and then of the DS set of the cut, the addresses of its hosts, and no final records |
| `Responses.DelegationRefers` | internal/resolver/handler.go:264-310 | a delegation at the name itself lists exactly the values of its DS set and then of its NS set, the addresses of its hosts, and no final records |
| `Responses.GlueIsStored` | internal/resolver/handler.go:208-222 | glue is, host after host, the stored IPv4 and then IPv6 addresses of each host that the zone knows, and nothing for other hosts |
| `Responses.CutIsAbove` | internal/resolver/handler.go:196-197 | the cut named in a referral is a proper ancestor of the query, and no name between them exists |
| `Responses.StopIsTruthful` | internal/resolver/handler.go:134-441 | all of this, for every way a pass can end |
| `Responses.RunIsLastPass` | internal/resolver/handler.go:119-441 | a run whose walk ends at a name is its chain of CNAMEs, none when flattening, followed by one pass there |
| `Responses.OtherEnds` | internal/resolver/handler.go:123-132 | a walk that does not end in time gives SERVFAIL and three empty sections; one that leaves the zone when flattening gives one CNAME |
| `Responses.AliasesAreStored` | internal/resolver/handler.go:254-255 | every CNAME in an unflattened answer is the one stored for its owner, with its ttl and its target qualified |
| `Responses.AliasIsFollowed` | internal/resolver/handler.go:242-263 | nothing but the alias is ever served for a name that has one |
| `Responses.FlatSays` | internal/resolver/handler.go:242-319 | flattening changes neither what is denied nor what is served or referred to, owner aside |
| `Responses.ResponsesAreTruthful` | internal/resolver/handler.go:117-441 | in both modes and for every walk, a response is a name error exactly when the name at its end is missing or an ANAME target is reported so, a failure exactly when a needed read or an ANAME target fails or the walk is too long; it denies a missing name with the SOA, serves exactly the content of the name's location, with the SOA in its place when it is empty, refers to exactly the cut found, and says nothing but CNAMEs about a name outside the zone |
| `ZoneReplies.StopAnswers` | internal/resolver/handler.go:134-441 | a last pass for an SOA, DNSKEY, CNAME or DS query: the answer of the zone itself, of a cut, or nothing but the chain |
| `ZoneReplies.ZoneRepliesAreRight` | internal/resolver/handler.go:117-441 | with and without flattening and DNSSEC: where the zone answers itself, an SOA query gets the SOA record, a DNSKEY query the keys of a signed zone, a CNAME query the stored alias with its target qualified, a DS query nothing; at a cut a DS query gets the DS set in the answer section and nothing else, any other a referral; the SOA stands in the authority section exactly when nothing is answered |
| `ZoneReplies.ElsewhereTypeBlind` | internal/resolver/handler.go:134-230 | where no location answers for a name, responses without DNSSEC are the same for every type of query |
| `Aname.AskUpstream` | internal/resolver/handler.go:643-664 | the upstream addresses of the wanted family in order, or a failure without addresses |
| `Aname.FindANAME` | internal/resolver/handler.go:620-718 | the loop runs its body at most 11 times and computes the bounded search |
| `Aname.AnameOutcomes` | internal/resolver/handler.go:620-718 | the search ends in success or in a failure without addresses, never in a name error |
| `Aname.AnameCycleFails` | internal/resolver/handler.go:625-632 | names that only lead to one another end in failure |
| `Aname.FamilyIsKept` | internal/resolver/handler.go:650-660 | the upstream addresses are those of the records of the wanted type, in order |
| `Aname.PathIsFound` | internal/resolver/handler.go:620-718 | along any path of at most eleven names, each leading to the next by its CNAME or, without addresses, by its ANAME, the search finds what the last one yields: its addresses, none, what upstream says, or a failure |
| `Aname.LongPathFails` | internal/resolver/handler.go:625-632 | along any longer path it fails |
| `Aname.NameErrorMeansMissing` | internal/resolver/handler.go:117-441 | so, with ANAMEs resolved by this loop, a response is a name error exactly when the name at the end of the walk is missing |
| `Dnssec.StopAdds` | internal/resolver/handler.go:134-441 | one last pass with DNSSEC adds at most an NSEC record and hides a name error, exactly unless an ANAME target fails |
| `Dnssec.NsecSays` | internal/resolver/handler.go:720-747 | an NSEC record has the denied name, the minimum ttl, and exactly the types of the zone or the apex without the denied one, of a cut without DS, or of a missing name only its own |
| `Dnssec.DnssecOnlyAddsNsec` | internal/resolver/handler.go:720-747 | the whole unsigned response with DNSSEC is the flattened one with at most one NSEC record added and name errors turned into empty answers, if and only if the walk does not end at an ANAME whose target fails |
| `Dnssec.ApexFailureHidden` | internal/resolver/handler.go:725-726 | on every server, an apex query whose ANAME fails is SERVFAIL without DNSSEC and NOERROR with it |
| `Dnssec.DanglingDiffers` | internal/resolver/handler.go:725-726 | a concrete server on which that happens |
| `Aname.DnssecDiffersAtApex` | internal/resolver/handler.go:720-747 | with ANAMEs resolved by the code's loop that is the only difference: the unsigned DNSSEC response is the flattened one with at most one NSEC record if and only if the query is not for an apex at whose end an ANAME fails |
| `Secured.CleanRun` | internal/resolver/handler.go:117-441 | a run makes no record that signing would drop, and no NSEC record in the answer section |
| `Secured.ApplyDnssec` | internal/resolver/handler.go:749-757 | both sections are signed, each in some order of its sets |
| `Secured.SecuredResponse` | internal/resolver/handler.go:749-757 | for all orders, signatures aside, the signed response has exactly the records of the flattened one, each as often, and at most one NSEC record, in the authority section |
| `Caa.SkippedNames` | internal/types/zone.go:139-164 | all names between a missing name and its closest encloser match like that name |
| `Caa.JumpToEncloser` | internal/resolver/handler.go:592-612 | hence a search that jumps over them finds the same nearest set |
| `Caa.Stop` | internal/resolver/handler.go:592-612 | one stop of the climb either has the nearest set or may go on above it, also when a wildcard replaced the location |
| `Caa.StartBelow` | internal/resolver/handler.go:585-591 | the first location looked at either has the relevant set or the climb above it finds it |
| `Caa.DotsShrink` | internal/resolver/handler.go:592-612 | a lookup that answers never leads to a name with more dots, for every built zone |
| `Caa.FindCAA` | internal/resolver/handler.go:585-618 | the climb terminates for every built zone and, for qualified zone names and unqualified locations, returns the set of the nearest name at or above the query, else the apex set |
| `CaaReplies.SearchIsNearest` | internal/resolver/handler.go:585-618 | in a canonical zone, for a name that a location answers for, the search gives the nearest set |
| `CaaReplies.CaaStop` | internal/resolver/handler.go:134-441 | a last pass takes CAA records from the search and only where the zone answers from its own data |
| `CaaReplies.CaaIsNearest` | internal/resolver/handler.go:397-402 | in every mode a response of a canonical zone to a CAA query carries exactly the nearest set at or above the name that owns it, a name that a location answers for, or no CAA record where the walk does not end at data of the zone |
| `Keys.SplitOfRender` | internal/storage/data_handler.go:143-165 | splitting a key at its colons gives back the parts it was built from |
| `Keys.RenderInjective` | internal/storage/data_handler.go:143-165 | the key builders are injective and mutually disjoint on colon-free names |
| `Keys.RRSetEntriesAreRRSets` | internal/storage/data_handler.go:126-136 | a changed key is taken for a record set exactly when it is one |
| `Keys.KeySpellings` | internal/storage/data_handler.go:143-165 | the keys of one zone, letter by letter |
| `Redis.Connection.Send` | pkg/hiredis/transaction.go:40-78 | a command is queued unless the copy it is sent from carries an error or the connection fails; the returned copy carries the error on |
| `Redis.Connection.Commit` | pkg/hiredis/transaction.go:27-38 | the whole queue takes effect in one step or not at all, and success is reported only if it did |
| `Redis.ExecAllAgain` | pkg/hiredis/transaction.go:27-78 | a list of commands is idempotent as a whole, on every store |
| `Replication.ApplyNext` | internal/storage/data_handler.go:635-781 | applying the event right behind a synced prefix keeps the store synced, one event further |
| `Replication.AppendKeepsSync` | internal/api/database/internal.go:429-445 | a new event changes nothing about what has been applied |
| `Replication.CommitKeepsSync` | internal/storage/data_handler.go:780-780 | an executed commit moves store, revision and batch on by exactly one event, heard of or not |
| `Replication.StepKeepsInv` | cmd/zone_updater/zone_updater.go:35-56 | every step, crashes and lost replies included, keeps the invariant |
| `Replication.ExactlyOnce` | cmd/zone_updater/zone_updater.go:35-56 | at the end of every run the store is the in-order replay of exactly the events up to the stored revision, and the unapplied batch is the stretch of the log right behind it |
| `Replication.Progress` | cmd/zone_updater/zone_updater.go:35-56 | from every reachable state the next decodable event can still be applied |
| `Replication.UndecodableBlocks` | internal/storage/data_handler.go:711-714 | no reachable state has passed an event that cannot be decoded |
| `Replication.ReachTheorem` | cmd/zone_updater/zone_updater.go:35-56 | some run gets exactly the first n events into the store if and only if all of them can be decoded |
| `Replication.LateCommitRewinds` | internal/storage/data_handler.go:780-780 | a commit executed after its event has been passed takes the revision back to that event |
| `Replication.LateCommitHeals` | internal/storage/data_handler.go:780-780 | an updater that starts over from that revision replays the log to exactly the store there was |
| `Replication.LateCommitPersists` | internal/storage/data_handler.go:780-780 | but an updater that goes on with the batch it holds leaves what the late commit undid undone: a concrete log |
| `Replication.GetEvents` | internal/api/database/internal.go:429-445 | returns the contiguous stretch of the log right after the revision, at most `count` events |
| `Replication.BatchSize` | cmd/zone_updater/zone_updater.go:41-41 | a batch is a hundred events, or all that are left |
| `Replication.ApplyEvent` | internal/storage/data_handler.go:635-781 | success means that the event was applied whole; failure means all or nothing, although errors of discarded transaction copies are dropped; an undecodable event changes nothing |
| `Replication.Poll` | cmd/zone_updater/zone_updater.go:35-56 | one turn of the updater keeps the store synced and, unless the process dies, applies the whole batch |
| `Database.DataBase.Execute` | internal/api/database/db.go:243-552 | rows and event change together or not at all, whether the operation is refused, rolled back or committed without the caller hearing of it, and the log keeps explaining the tables |
| `Database.AcceptsExactly` | internal/api/database/db.go:243-552 | which operations are accepted: additions of what is not there to what is, updates and deletions of what is there |
| `Database.NamedRowsChange` | internal/api/database/db.go:243-552 | the rows that an operation names become what it says, the keys of a new zone included |
| `Database.OtherRowsStay` | internal/api/database/db.go:243-552 | all other rows stay |
| `Database.DeleteUndoesAdd` | internal/api/database/db.go:462-552 | deleting a record that was just added is accepted and restores the tables |
| `Database.MutatedReferential` | internal/api/database/db.go:243-552 | accepted operations keep every location in a zone and every record in a location |
| `Database.HistoryReferential` | internal/api/database/db.go:243-552 | so do whole histories |
| `Database.ViewAfter` | internal/storage/data_handler.go:635-780 | executing the queued commands acts on every key separately |
| `Database.EffectOfOp` | internal/storage/data_handler.go:635-780 | the net effect of each event on each served key, signing keys included |
| `Database.ApplyView` | internal/storage/data_handler.go:635-781 | applying an event, revision and all, has that effect and no other |
| `Database.OpKeepsAgreement` | internal/storage/data_handler.go:635-780 | each accepted operation moves its tables and the served keys in step |
| `Database.ReplayAgrees` | internal/storage/data_handler.go:635-781 | replaying any history leaves each record key present exactly when its record exists and is enabled, with its value; zone list, label sets and configurations equal to the enabled ones; and under the four key names of each zone exactly the public and private keys it was added with |
| `Database.RedisFollowsDatabase` | cmd/zone_updater/zone_updater.go:35-56 | at the end of every run of the protocol, Redis agrees with the database as it was after the last replicated event |
| `WorkerPool.StepKeepsInv` | pkg/workerpool/workerpool.go:39-109 | every step keeps token ownership, job conservation, channel capacities and the order of shutdown |
| `WorkerPool.Ownership` | pkg/workerpool/workerpool.go:46-109 | in every interleaving a worker's channel is out exactly once while it waits or has quit and not at all while it is busy; every job is in exactly one place and handled at most once |
| `WorkerPool.HolderDelivers` | pkg/workerpool/workerpool.go:50-53 | before Stop, a deliverer that has a channel can send on it |
| `WorkerPool.Progress` | pkg/workerpool/workerpool.go:46-109 | before Stop, with at least one worker, an unhandled job always leaves a step of the pool enabled |
| `WorkerPool.WorkFalls` | pkg/workerpool/workerpool.go:46-109 | every step of the pool itself uses up some of a bounded amount of work |
| `WorkerPool.OwnRunsEnd` | pkg/workerpool/workerpool.go:46-109 | so its own runs are bounded in length, however they interleave |
| `WorkerPool.JobsTheorem` | pkg/workerpool/workerpool.go:39-109 | in every run before Stop, whatever steps the pool takes until it can take no more, every job submitted is handled exactly once, if and only if there is a worker |
| `WorkerPool.NeverBlocks` | pkg/workerpool/workerpool.go:96-99 | with at most maxWorkers workers, re-registration never blocks |
| `WorkerPool.ShutdownProgress` | pkg/workerpool/workerpool.go:54-62 | with at most maxWorkers workers, a shutdown always has a step enabled at the dispatcher or at the worker it waits for |
| `WorkerPool.StuckForever` | pkg/workerpool/workerpool.go:54-62 | no run leads out of a shutdown whose worker waits for room in a pool that nobody empties |
| `WorkerPool.StopCanHang` | pkg/workerpool/workerpool.go:17-109 | for every number of workers above maxWorkers some run gets there |
| `WorkerPool.StopTheorem` | pkg/workerpool/workerpool.go:17-109 | after Stop, whatever steps the pool takes until it can take no more, Stop has returned, if and only if there are at most maxWorkers workers |
| `RateLimit.RateLimiter.CanHandle` | pkg/ratelimit/limiter.go:43-87 | listed keys and a disabled limiter touch no bucket; any other call changes its own bucket only, as the leaky bucket with expiry says for the four clock readings of the call |
| `RateLimit.RateLimiter.HandleAll` | cmd/resolver/resolver.go:82-97 | the verdicts on any sequence of requests are those of the specification |
| `RateLimit.Potential` | pkg/ratelimit/limiter.go:58-76 | for a bucket that is never forgotten, accepted calls plus what is left in it fit into its height and the elapsed time |
| `RateLimit.RememberedBound` | pkg/ratelimit/limiter.go:59-76 | a bucket that is never forgotten, of height zero or more, accepts in any window of any history calls worth at most window + MaxTime + TimeStep |
| `RateLimit.WindowBoundTheorem` | pkg/ratelimit/limiter.go:32-85 | the limiter, which forgets, keeps that bound in every window of every history if and only if MaxTime is not negative and MaxTime + TimeStep is at most a minute |
| `RateLimit.BreaksBound` | pkg/ratelimit/limiter.go:58-85 | otherwise a bucket's worth of calls and another a minute and a nanosecond later break it, or a single call when the burst is negative |
| `RateLimit.SixtyPerMinuteBreaks` | pkg/ratelimit/limiter.go:32-85 | with Rate 60 and Burst 100, 202 calls get through in that time |
| `RateLimit.WindowCountTheorem` | pkg/ratelimit/limiter.go:32-85 | for a rate of at most 60000, where TimeStep is positive, the same as a number of calls: at most (window + MaxTime + TimeStep) / TimeStep, if and only if buckets drain in time |
| `RateLimit.RefusesNothingTheorem` | pkg/ratelimit/limiter.go:32-33 | no call of any history is ever refused if and only if the rate is above 60000, where TimeStep is zero |
| `RateLimit.RejectionHealsTheorem` | pkg/ratelimit/limiter.go:58-85 | in every history of the limiter a call that comes a TimeStep after a rejected one is accepted, if and only if MaxTime is not negative; otherwise the third of three calls at 0, 0 and TimeStep is refused |
| `RateLimit.RejectionLowers` | pkg/ratelimit/limiter.go:63-70 | in every history, for every configuration, a rejected call never raises the bucket |
| `RateLimit.ForgettingInvisible` | pkg/ratelimit/limiter.go:58-85 | if a full bucket drains within the expiry time, forgetting changes no verdict of any history |
| `RateLimit.ForgettingVisible` | pkg/ratelimit/limiter.go:58-85 | otherwise some history shows the difference |
| `RateLimit.ForgettingTheorem` | pkg/ratelimit/limiter.go:32-85 | forgetting is invisible in all histories if and only if MaxTime is not negative and MaxTime + TimeStep is at most a minute |
| `RateLimit.BurstBelowRate` | pkg/ratelimit/limiter.go:32-33 | a burst smaller than the rate is enough for that |
| `RateLimit.KeysAreIndependent` | pkg/ratelimit/limiter.go:58-85 | in any mixture of calls each key that is not listed gets the verdicts it would get alone |
| `RateLimit.ServedAlone` | pkg/ratelimit/limiter.go:43-87 | so every theorem about one key holds for each key of a server that starts afresh |
| `RateLimit.ListedServed` | pkg/ratelimit/limiter.go:44-53 | a disabled limiter serves everyone; else black-listed keys are never served, also when white-listed, and white-listed ones always |
| `RateLimit.RemembersForAMinute` | pkg/ratelimit/limiter.go:58-85 | a bucket is remembered for sixty seconds after the call that set it, to the nanosecond |
| `Health.HealthCheckItem.StatusDown` | internal/healthcheck/healthcheck.go:261-270 | moves the status one failure on |
| `Health.HealthCheckItem.StatusUp` | internal/healthcheck/healthcheck.go:272-281 | moves the status one success on |
| `Health.HealthCheckItem.Probe` | internal/healthcheck/healthcheck.go:57-62 | a sequence of probes leaves the status of its history |
| `Health.StatusIsClampedRun` | internal/healthcheck/healthcheck.go:261-281 | after any probe history the status is the signed trailing run of equal outcomes, clamped to the two counts |
| `Health.FilterHealthcheck` | internal/healthcheck/healthcheck.go:283-312 | keeps exactly the white records at or above the threshold, in place |
| `Health.PassesExactly` | internal/healthcheck/healthcheck.go:283-312 | without a threshold: if some candidate is above the down count and none within one of the up count, all above the down count pass; else only the best, if they reach it |
| `Health.SomeSurvive` | internal/healthcheck/healthcheck.go:283-312 | something survives exactly when some white record is not below the down count |
| `Health.FullyDownLast` | internal/healthcheck/healthcheck.go:283-312 | a record at the down count of its item survives only if all white records are there, for every configured count |
| `Health.NeverEmptiesTheorem` | internal/healthcheck/healthcheck.go:261-312 | with the configured down count in the filter and its negation in the items when it is positive: no probe histories let the filter empty a non-empty white set, if and only if the count is negative and at most the up count, or both are zero |
| `Geo.MarkMatches` | internal/geotools/geotools.go:17-33 | first pass over a mask: matches stay white, other candidates turn grey, the rest black; it counts a match exactly when there is one |
| `Geo.KeepDefaults` | internal/geotools/geotools.go:38-52 | second pass: of the records not black, exactly the default ones are white |
| `Geo.KeepSame` | internal/geotools/geotools.go:10-102 | both passes, from any mask, for countries and AS numbers alike; a database error leaves the mask alone |
| `Geo.SingleFilter` | internal/resolver/handler.go:458-462 | from an all-white mask: the matching records if any match, else the default ones |
| `Geo.CountryWithinAsn` | internal/resolver/handler.go:463-465 | with a known country `asn+country` leaves the country matches within the AS result, else the default-country records within it |
| `Geo.UnknownCountryRevives` | internal/resolver/handler.go:463-465 | with an unknown country the result stays within the AS result if and only if every default-country record is in it or the AS filter matched nothing |
| `Geo.SetAsideRevived` | internal/resolver/handler.go:463-465 | two records on which that happens |
| `Geo.InRangeIsPrefix` | internal/geotools/geotools.go:113-136 | all distances are read in range exactly when the candidates are a prefix of the records |
| `Geo.GetMinimumDistance` | internal/geotools/geotools.go:105-147 | panics exactly when the candidates are no prefix; otherwise keeps the candidates at minimum distance |
| `Geo.LocationKeepsNearest` | internal/resolver/handler.go:466-467 | from an all-white mask nothing panics and exactly the nearest records stay, or all of them if all are beyond the limit |
| `Selection.LehmerRandom` | internal/resolver/rng.go:5-7 | a draw is below its bound |
| `Selection.LehmerInjective` | internal/resolver/rng.go:5-7 | different clock readings give different numbers before the reduction to the range |
| `Selection.LehmerValues` | internal/resolver/rng.go:5-7 | some draws by their numbers |
| `Selection.Tally` | internal/resolver/handler.go:517-524 | number and total weight of the candidates |
| `Selection.PickWeighted` | internal/resolver/handler.go:531-542 | a draw below the total, with weights of any sign, picks the first candidate at which the running weight exceeds it |
| `Selection.PickRotating` | internal/resolver/handler.go:543-553 | a draw below the number of candidates picks the candidate of that rank |
| `Selection.PickExists` | internal/resolver/handler.go:531-542 | every draw below the total picks exactly one candidate, whatever the signs of the weights |
| `Selection.PicksInterval` | internal/resolver/handler.go:531-542 | without negative weights the draws that pick a candidate form an interval as long as its weight |
| `Selection.WeightedIsFair` | internal/resolver/handler.go:531-542 | exactly Weight(i) of the possible draws pick candidate i |
| `Selection.RoundRobinIsFair` | internal/resolver/handler.go:543-553 | exactly one of the possible draws picks each candidate |
| `Selection.WeightedOrder` | internal/resolver/handler.go:531-542 | order "weighted" with a positive total: of as many draws as the candidates weigh together, as many as a record weighs put it first |
| `Selection.RotatingOrder` | internal/resolver/handler.go:543-553 | order "rr", or "weighted" without weight: of as many draws as there are candidates, one puts each first |
| `Selection.FixedOrder` | internal/resolver/handler.go:554-561 | any other order, or a negative total: the first candidate is first |
| `Selection.OrderIps` | internal/resolver/handler.go:516-583 | no candidate, no address; otherwise the picked record is first, alone or followed by the other candidates in cyclic order |
| `Selection.RotationConserves` | internal/resolver/handler.go:570-582 | a full answer is the addresses of all candidates in their order, rotated so that the picked one is first |
| `Selection.OrderedReturns` | internal/resolver/handler.go:516-583 | nothing without candidates, one candidate's address for "single", and otherwise the address of each candidate once |
| `Selection.Filter` | internal/resolver/handler.go:454-472 | geographic filtering from an all-white mask, then ordering |
| `Selection.CountryFilter` | internal/resolver/handler.go:461-462 | filter "country": candidates are the records of the client's country if there are any, else those without one |
| `Selection.AsnFilter` | internal/resolver/handler.go:459-460 | filter "asn": the same for AS numbers |
| `Selection.AsnCountryFilter` | internal/resolver/handler.go:463-465 | filter "asn+country": of the records that the AS number leaves, those of the country if there are any, else those without one |
| `Selection.AsnUnknownCountryFilter` | internal/resolver/handler.go:463-465 | for an unknown country: the records without one that the AS number leaves or, when it matches anything, all of them |
| `Selection.HalfKnownFilter` | internal/resolver/handler.go:463-465 | when the geo database knows only one of the two, that one decides alone |
| `Selection.LocationFilter` | internal/resolver/handler.go:466-467 | filter "location": the nearest records, or all when all are beyond the limit |
| `Selection.NoFilter` | internal/resolver/handler.go:458-469 | without a filter, or when the geo database knows nothing of the client, all records |
| `Cookies.HexRoundTrip` | internal/resolver/cookie.go:48-55 | decoding inverts encoding |
| `Cookies.HexSpelled` | internal/resolver/cookie.go:54-54 | each byte is written as two digits 0 to 9 or a to f, the high half first |
| `Cookies.HexDecodable` | internal/resolver/cookie.go:29-32 | exactly the strings of an even number of hexadecimal digits can be decoded |
| `Cookies.BytesRoundTrip` | internal/resolver/cookie.go:28-46 | every four bytes are the big-endian packing of the timestamp read from them |
| `Cookies.PackRoundTrip` | internal/resolver/cookie.go:28-55 | unpacking a packed server cookie gives its version, timestamp and hash |
| `Cookies.GetCookie` | internal/resolver/cookie.go:73-105 | the first cookie option decides, and without one there is no cookie |
| `Cookies.IssuedParses` | internal/resolver/cookie.go:134-146 | an issued cookie parses back to its client cookie, version, timestamp and hash |
| `Cookies.IssuedBytes` | internal/resolver/cookie.go:57-71 | the bytes of an issued cookie: client cookie, version 1, three zeros, the seconds big-endian, and the hash of these and the address |
| `Cookies.EchoedParses` | internal/resolver/cookie.go:121-132 | an echoed cookie parses back to the one received |
| `Cookies.ExchangeKeepsSession` | internal/resolver/cookie.go:107-146 | a cookie presented within half an hour is accepted, and the one returned is good for another half hour, echoed or new |
| `Cookies.SessionPersists` | internal/resolver/handler.go:72-90 | a client that begins with a client cookie and always presents its latest cookie in time is never refused again, for every session length and all clock readings |
| `Cookies.AnswerKinds` | internal/resolver/handler.go:72-90 | no cookie is ignored, one that is not eight or twenty-four bytes in hexadecimal is a format error, a client cookie alone is answered with a new cookie |
| `Cookies.GapIsTight` | internal/resolver/cookie.go:107-132 | a gap of half an hour and a nanosecond can cost the session |
| `Cookies.FreshIsAccepted` | internal/resolver/cookie.go:107-146 | a cookie is accepted at the moment of its issue if and only if the time in seconds fits 32 bits |
| `Cookies.MessageInjective` | internal/resolver/cookie.go:57-71 | the hashed bytes determine client cookie, version, timestamp and address |
| `Cookies.AddressNotation` | internal/resolver/cookie.go:59-62 | an IPv4 address counts the same in both notations, and different IPv6 addresses count as different |
| `Cookies.BoundToAddress` | internal/resolver/cookie.go:107-119 | a cookie issued to one address is accepted from another, within the time limits, exactly if the hash collides on the two different messages that the addresses give |
| `Signing.SplitSets` | internal/types/dns_types.go:680-703 | a map from exactly the signable name and type pairs to their records in order |
| `Signing.SetIsKept` | internal/types/dns_types.go:680-703 | a set is all records of its owner and type, in the order of the section |
| `Signing.AppendSet` | internal/dnssec/dnssec.go:75-87 | a set is followed by its signature, nil when it cannot be made, the stored one for DNSKEY, none for NS away from the apex |
| `Signing.SignResponse` | internal/dnssec/dnssec.go:71-90 | for any choice of the next set, the result is the sets and their signatures in some order of all sets |
| `Signing.SigningConserves` | internal/dnssec/dnssec.go:71-90 | for every order each record occurs as often as before, OPT records excepted |
| `Signing.SigningKeepsSetsTogether` | internal/dnssec/dnssec.go:74-75 | for every order each record set is contiguous |
| `Signing.SigningSignsOnce` | internal/dnssec/dnssec.go:76-87 | for every order each set is followed by one entry: the signature, with the owner of the set and the ttl of its first record, that the zone key gives for all records of that owner and type in section order, nil exactly when it gives none; the stored signature for DNSKEY; nothing for NS sets when the query name is not the zone name |
| `Signing.NilMeansUnsigned` | internal/dnssec/dnssec.go:92-120 | a section has a nil record exactly when some set that needs a signature cannot be signed |
| `Signing.EveryOrderSigns` | internal/dnssec/dnssec.go:71-90 | all of this together |

## Left out

- Characters: the name index works on the UTF-8 bytes of names reversed rune by rune; the model works on characters, which is the same for every name whose dots are ASCII.
- The cookie switch in front of the query loop: a malformed cookie is answered with a format error and then answered again, so the resolver model starts behind the switch.
- A zone that is listed but cannot be loaded, and changes of the store in the middle of one request.
- Upstream lookups and their cache: a fixed function of name and type. Address filtering inside the resolver is a fixed function of the record set; `Selection` models it on its own.
- Glue for hosts outside the zone, and delegations above deeper names that exist: the code examines the closest encloser only, and so does the model.
- Whether the NSEC record of an empty non-terminal should admit types, and the comparison of both modes for CAA, SOA, DNSKEY, DS and CNAME queries, whose owner names follow other rules; `ZoneReplies` and `CaaReplies` state those responses in each mode.
- Caa.FindCAA: for a query that matches nothing or an empty non-terminal the code looks under the empty label and then at the apex instead of climbing; `CaaReplies.CaaIsNearest` shows that the resolver never asks that.
- Resolver.RequestContext.Pass: the branches of one pass are a function, Step; the method moves its result into the fields of the request.
- Flattening.FlatteningPreservesMeaning: compares responses with DNSSEC off; `Dnssec.DnssecOnlyAddsNsec` says what DNSSEC adds.
- Responses.ResponsesAreTruthful: speaks of responses with DNSSEC off; `Secured.SecuredResponse` carries it over to signed ones.
- Delete-zone, delete-location and import-zone events: they are in the replication log with arbitrary effects, but agreement of Redis with the database is not claimed after them, because the code deletes one literal key where a pattern is meant.
- JSON encoding of events and values, and the undecodable delete-zone payload as such: an event is decodable or not.
- The apex label "@" in label sets: the code adds it to Redis on every zone update, whatever the table says.
- Case-insensitive collation of the database, and authorisation beyond yes or no.
- Redis.Connection.Send: a connection that failed once is taken to fail from then on, as its buffered writer does; with a connection that recovers, an error in a discarded copy would go unnoticed. The prefix and suffix that are put around every key are empty.
- Replication.ExactlyOnce: an EXEC takes effect before the next step of the updater or never. One that is still under way when the process dies, and is executed after a new process has read the revision, is excluded; `LateCommitRewinds`, `LateCommitHeals` and `LateCommitPersists` show what it would do.
- The record cache and its freshness test.
- Worker pool: jobs are told apart, AddWorker after Run is not modelled, and time is not: what is proved of a pool holds when it has no step of its own left.
- RateLimit.RateLimiter.CanHandle: calls for one key come one after another, and the cache's periodic clean-up, which removes only what has expired, is not modelled. A rate of zero divides by zero and a negative one inverts the step; both are excluded.
- The health-check protocol itself, and the mask it would pass on: the resolver does not call the filter. An item that cannot be read has status 0, as one never probed.
- Distances are real numbers and given; rounding and NaN are not modelled. LehmerRandom takes the nanosecond field of the clock as a parameter.
- Cookies.SessionPersists: is stated until the 32-bit timestamp wraps, where `FreshIsAccepted` shows that every cookie fails. The OPT record that carries the cookie is not modelled.
- Configuration, logging, HTTP, SMTP, geo database files, DNSSEC key generation and the other commands.
