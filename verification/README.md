# z42 in Dafny: the decisions of an authoritative DNS server

z42 answers DNS queries from zones kept in redis. This project models the parts that
decide, and proves what they promise:

- **Names and zones** (`Names`, `RadixTree`, `LabelTree`, `ZoneIndex`). Names are reversed as flat
  strings and searched in a radix tree. `LabelTree` is an independent reading of section 3.3.1 of
  RFC 4592 on label sequences, and the byte-level search is proved equal to it.
- **The query loop** (`Requests`, `QueryLoop`, `Handler`, `Aname`, `Caa`). `Handler` runs the loop over a
  mutable request context; `QueryLoop` says the same response as a chain of aliases and what its end
  deserves. `AnswerContents` reads every record of those responses off the store, and `AliasChains`,
  `Outcomes`, `Referrals`, `Flattening` and `SignedAnswers` prove what they mean: contiguous chains (section 4.3.2 of RFC 1034), NXDOMAIN (section 2 of RFC 8020), the kinds
  of NOERROR (section 2 of RFC 2308), where referrals point, exactly when CNAME flattening agrees with the
  plain answer, and exactly when a signed response says the same as an unsigned one. `FlatteningExamples`
  holds zones in which flattening does not agree.
- **Address selection** (`Masks`, `Geotools`, `AddressFilter`). In-place mask passes, then weighted or
  round-robin rotation, with exact counts.
- **Rate limiter** (`RateLimit`). A leaky bucket in an expiring cache, over whole request traces.
- **Worker pool** (`WorkerPool`). The channel-of-channels protocol as a step system.
- **Health checks** (`Healthcheck`). A saturating counter and the filter that reads it.
- **Zone store** (`Storage`, `ZoneCache`). Keys, zone list and zone cache, then the cache under
  interleaved writes, evictions, event deletions and shared loads.
- **Records and signing** (`Records`, `Selections`, `Dnssec`). Record sets, their records, and signing set by set.

Redis reads, the geographic database, the upstream resolver, signatures and the clock are parameters.
Within one request they are fixed. Strings are sequences of characters; for valid UTF-8 a prefix that ends in a dot
is the same in characters and in bytes.

Where the code does not do what its documentation suggests, the code is followed, the exact condition
is proved, and an input shows the failure:

| condition | input |
|---|---|
| `Flattening.FlatteningAgreesIff` | `FlatteningExamples.UnqualifiedTargetDisagrees`, `FlatteningExamples.EleventhAliasDisagrees`, `FlatteningExamples.DsKeepsTheCut`, `FlatteningExamples.CaaStartsAgain` |
| `SignedAnswers.SignedAgreesIff` | `SignedAnswers.ApexFailureHidden` |
| `ZoneCache.DeletionEndsStalenessIff` | `ZoneCache.DeletionCanBeLost` |
| `RateLimit.ExpiryIsHarmlessIff` | `RateLimit.ForgottenTooSoon` |
| `Geotools.CascadeIff` | `Geotools.GreyComesBack` |
| `Healthcheck.NeverEmptiesIff`, `Healthcheck.CountersNeverEmptyIff` | `Healthcheck.StatusBelowDownCountEmpties` |
| `Storage.RRSetKeyRoundTrip` | `Storage.ColonHidesRRSet` |

## Model

| member | source | states |
|---|---|---|
| Names.ReverseName | internal/types/zone.go:66-72 | the in-place swap of runes yields the name, a dot in front, read backwards |
| Names.DottedSuffixAligned | internal/types/zone.go:82-89 | label alignment: a suffix that begins with a dot is a whole number of labels |
| Names.LabelSuffixIffDotted | internal/types/zone.go:119 | being at or below a name is the same on labels and on dotted strings |
| Names.SplitConcat | internal/storage/data_handler.go:141-144 | splitting at a separator turns concatenation into concatenation of parts |
| LabelTree.BetweenNameAndEncloser | internal/types/zone.go:135-139 | every name between a missing name and its closest encloser is missing and expands alike |
| ZoneIndex.NewZone | internal/types/zone.go:74-100 | the tree's keys are exactly the configured names and their ancestors, reversed, with a value exactly at configured names |
| ZoneIndex.LongestPrefixIsEncloser | internal/types/zone.go:119 | the longest key that is a prefix of a query is the node of its closest encloser, and there is none only at the apex |
| ZoneIndex.FindLocationIsLabelTree | internal/types/zone.go:110-156 | for every location set and every name below the apex the search gives the answer of section 3.3.1 of RFC 4592 on the label tree |
| ZoneIndex.FindZoneIsDeepest | internal/storage/data_handler.go:201-207 | the zone found is the deepest loaded zone the name is at or below, and none is found exactly when there is none |
| ZoneIndex.InZoneName | internal/storage/data_handler.go:201-207 | a name found in a zone is its apex or a relative name followed by the zone's name |
| Storage.DataHandler.LoadZones | internal/storage/data_handler.go:176-188 | a successful read replaces the zone tree by the one of the names read; a failed one keeps it |
| Storage.DataHandler.OnKeyEvent | internal/storage/data_handler.go:96-104 | an event drops one record set or one zone copy and nothing else |
| Storage.DataHandler.GetZone | internal/storage/data_handler.go:209-242 | fresh copies are served, a failed load falls back to the copy, a successful one builds a correct tree |
| Storage.RRSetKeyRoundTrip | internal/storage/data_handler.go:134-165 | a record-set key splits back into its parts and is recognised exactly when zone and label hold no colon |
| Storage.ZoneKeysRoundTrip | internal/storage/data_handler.go:151-173 | location, configuration and key events name their zone and are never taken for record sets |
| Storage.InvalidateZone | internal/storage/data_handler.go:96-104 | a write to a zone's locations, configuration or keys drops that zone's copy and nothing else |
| Storage.InvalidateRRSet | internal/storage/data_handler.go:96-104 | a write to a record set drops exactly that set, except that a colon in the location drops the zone's copy instead |
| Storage.ColonHidesRRSet | internal/storage/data_handler.go:134-165 | a location whose record sets are not recognised |
| ZoneCache.NextInv | internal/storage/data_handler.go:209-242 | every step keeps cached copies, loads in flight and pending fallbacks genuine |
| ZoneCache.ReturnsAreBounded | internal/storage/data_handler.go:209-242 | over every interleaving a fresh hit shows what redis held no longer ago than the timeout plus the load, and a failed load gives the copy cached at the call |
| ZoneCache.DeletionEndsStalenessIff | internal/storage/data_handler.go:96-104 | after a deletion every later hit, in every continuation, shows locations and a configuration that redis held then or later, exactly when whatever a load in flight has read, locations and configuration, is what redis holds at the deletion |
| ZoneCache.DeletionCanBeLost | internal/storage/data_handler.go:101-103 | a run in which a write, of the locations or only of the configuration, and its deletion fall inside a load and the old zone is served as fresh until the whole timeout after the write is over |
| RateLimit.RateLimiter.CanHandle | pkg/ratelimit/limiter.go:51-95 | black and white lists decide first; otherwise the decision is the one `RateLimit.AcceptedIff` gives for the key's own requests so far, and no other key's bucket changes |
| RateLimit.RateLimiter.TouchBucket | pkg/ratelimit/limiter.go:66-93 | the bucket found in the cache, or a new one, takes the step whose decisions `RateLimit.AcceptedIff` states |
| RateLimit.AcceptedIff | pkg/ratelimit/limiter.go:40-93 | every decision on every trace, evicting or not: accepted exactly when on no window that ends there, and across which the bucket was not forgotten, have earlier accepted requests used up burst and elapsed time |
| RateLimit.RateBound | pkg/ratelimit/limiter.go:66-84 | on every window of every trace k accepted requests spanning T satisfy k * TimeStep <= MaxTime + TimeStep + T |
| RateLimit.BoundIsReached | pkg/ratelimit/limiter.go:71-82 | Burst + 1 simultaneous requests meet the bound and the next is refused |
| RateLimit.SpacedRequestAccepted | pkg/ratelimit/limiter.go:71-92 | a request at least TimeStep after the previous one is accepted |
| RateLimit.ExpiryIsHarmlessIff | pkg/ratelimit/limiter.go:31-41 | eviction changes no decision on any trace, and the bound survives it, exactly when a full bucket drains within a minute |
| RateLimit.SensibleRatesDrain | pkg/ratelimit/limiter.go:40-41 | it does when Burst + 1 <= Rate <= 60000 |
| RateLimit.ForgottenTooSoon | pkg/ratelimit/limiter.go:31-41 | with 60 requests a minute and bursts of 100 two bursts a minute apart break the bound and are decided differently |
| WorkerPool.StepInv | pkg/workerpool/workerpool.go:46-109 | every step keeps jobs in one place, one token per waiting worker, and shutdown in order |
| WorkerPool.ExactlyOnePlace | pkg/workerpool/workerpool.go:46-71 | in every reachable state a job is where it was queued once and handled at most once, and a worker has one token exactly while it waits |
| WorkerPool.AnnouncingNeverBlocks | pkg/workerpool/workerpool.go:17-24 | with at most maxWorkers workers announcing never blocks |
| WorkerPool.StopReturns | pkg/workerpool/workerpool.go:54-107 | once stopping, every run is bounded and ends only with every worker stopped and the dispatcher done |
| WorkerPool.RestMeansHandled | pkg/workerpool/workerpool.go:46-52 | without a stop the pool comes to rest only when every queued job has been handled |
| Healthcheck.HealthCheckItem.StatusUp | internal/healthcheck/healthcheck.go:280-289 | the status stays the closed form of the history |
| Healthcheck.HealthCheckItem.StatusDown | internal/healthcheck/healthcheck.go:269-278 | the status stays the closed form of the history |
| Healthcheck.StatusMeaning | internal/healthcheck/healthcheck.go:269-289 | the status is at least k exactly when the last k checks passed and at most -k exactly when the last k failed, up to its bounds, which it never leaves |
| Healthcheck.FilterHealthcheck | internal/healthcheck/healthcheck.go:291-320 | white addresses at or above the threshold survive, all others turn black |
| Healthcheck.NeverEmptiesIff | internal/healthcheck/healthcheck.go:295-317 | some address survives exactly when some white one has a status of at least DownCount |
| Healthcheck.StatusBelowDownCountEmpties | internal/healthcheck/healthcheck.go:295-317 | a status below DownCount removes the only address |
| Healthcheck.Survivors | internal/healthcheck/healthcheck.go:304-317 | the survivors are exactly the best when the best is at least UpCount - 1 or equals DownCount, else all above DownCount |
| Healthcheck.CountersNeverEmptyIff | internal/healthcheck/healthcheck.go:269-320 | with counts per item, some address survives whatever the histories exactly when a white one counts down no further than the filter's DownCount |
| Healthcheck.CountersKeepSomeAddress | internal/healthcheck/healthcheck.go:269-320 | so with the set's own counts addresses are never all removed |
| Geotools.GetSameASN | internal/geotools/geotools.go:57-102 | the two loops over the mask are one narrowing stage |
| Geotools.GetSameCountry | internal/geotools/geotools.go:10-55 | the two loops over the mask are one narrowing stage |
| Geotools.GetMinimumDistance | internal/geotools/geotools.go:105-147 | exactly the nearest white addresses stay white, or all white ones if none is within the bound |
| Geotools.InRangeIffWhitesFirst | internal/geotools/geotools.go:113-134 | the distances gathered for white addresses are indexed within range exactly when the white addresses come first |
| Geotools.KnownStageNarrows | internal/geotools/geotools.go:17-52 | the matching addresses if any match, else the default ones |
| Geotools.CascadeIff | internal/handler/handler.go:446-448 | asn+country leaves exactly the two-stage choice when the country is known or no grey address has a default country; otherwise exactly those grey addresses come back too |
| Geotools.GreyComesBack | internal/geotools/geotools.go:17-52 | an address outside the client's network, with a default country, is white again after the second stage |
| AddressFilter.OrderIps | internal/handler/handler.go:499-566 | the loops compute the chosen address or the rotation that starts with it |
| AddressFilter.WeightedChoiceIsExact | internal/handler/handler.go:514-525 | an address is chosen first on exactly as many residues of the clock as its weight |
| AddressFilter.RoundRobinIsBijection | internal/handler/handler.go:526-536 | each white address is chosen on exactly one residue |
| AddressFilter.ChosenIs | internal/handler/handler.go:508-543 | which address comes first for every order and clock: by the running total of weights, by turns, or simply the first |
| AddressFilter.AnswerIsRotation | internal/handler/handler.go:546-565 | the answer is nothing, the chosen address, or all white addresses once each in cyclic order from it |
| AddressFilter.Filter | internal/handler/handler.go:437-455 | the mask passes and the ordering leave what `AddressFilter.FilterLeaves` and `AddressFilter.ChosenIs` state |
| AddressFilter.FilterLeaves | internal/handler/handler.go:437-455 | for every filter and whatever the database knows, the addresses left to choose from, said of their countries, networks and distances |
| AddressFilter.FilterIsCascade | internal/handler/handler.go:446-448 | for a known country: those that list the network, or else those for every one, and of them those that list the country, or else those for every one |
| AddressFilter.RejectedStaysRejected | internal/handler/handler.go:446-448 | an address the first stage of asn+country turns black is never answered, wherever the client is |
| Records.ItemSet.Value | internal/types/dns_types.go:107-323 | one record per item, in order, without the items the type skips |
| Records.ItemRecordsEmptyIff | internal/types/dns_types.go:107-323 | a set yields no record exactly when every item is skipped |
| Records.SplitText | internal/types/dns_types.go:384-402 | the text in pieces of 255 characters |
| Records.SplitTextRoundTrip | internal/types/dns_types.go:384-402 | the pieces concatenate to the text, all but the last are full and the last is not |
| Dnssec.SplitSets | internal/types/dns_types.go:359-382 | one group per owner and type, in input order, without RRSIG and OPT |
| Dnssec.SignResponse | internal/dnssec/dnssec.go:29-48 | the groups in some order, each standing as `Dnssec.SetsAreContiguous` states |
| Dnssec.SigningConservesRecords | internal/dnssec/dnssec.go:29-48 | apart from signatures the response is a permutation of its input without OPT |
| Dnssec.OneSignaturePerSet | internal/dnssec/dnssec.go:34-46 | one signature per set that is no NS set, and per NS set only for a query at the apex |
| Dnssec.SetsAreContiguous | internal/dnssec/dnssec.go:32-46 | each set stands in one piece, in input order, and behind it the keys' own signature for DNSKEY, none for NS away from the apex, and else the signature of that set |
| Dnssec.FilterNsecBitmap | internal/dnssec/dnssec.go:19-27 | the bitmap without the query type |
| Aname.FindANAME | internal/handler/handler.go:603-701 | the loop gives what `Aname.AnameFinds` states |
| Aname.AnameFinds | internal/handler/handler.go:606-701 | names are followed, CNAME before addresses before ANAME, to one that does not lead on: outside the zone the upstream's addresses or a failure, inside its own ordered addresses, nothing, or a failure; a failure after eleven |
| Aname.AnameSearchEnds | internal/handler/handler.go:606-616 | for every start one of these ends is reached |
| Aname.RepeatedNameFails | internal/handler/handler.go:606-616 | if following names comes back to one of them the search fails, however long the cycle |
| Caa.LocatedDots | internal/types/zone.go:110-156 | what answers a name never has more labels than it, although a wildcard may jump levels |
| Caa.FindCAA | internal/handler/handler.go:568-601 | the climbing loop terminates and computes the climb |
| Caa.FindCaaIsNearest | internal/handler/handler.go:568-601 | for the apex and every answered name below it, the set of the nearest ancestor-or-self whose wildcard-expanded location has one, else the apex's (section 3 of RFC 8659 without aliases) |
| Handler.RequestContext.AddNSec | internal/handler/handler.go:703-730 | the steps are the denial whose effect on whole responses `SignedAnswers.SignedAgreesIff` states |
| Handler.RequestContext.ReferBelow | internal/handler/handler.go:156-213 | the steps are the response `AtEncloser`, whose meaning is in the next row |
| Outcomes.EncloserKinds | internal/handler/handler.go:156-213 | a NOERROR at a closest encloser is a referral and leaves the answer alone |
| Handler.RequestContext.ReferAt | internal/handler/handler.go:247-292 | the steps are the response `AtCut`, whose meaning is in the next two rows |
| Outcomes.CutKinds | internal/handler/handler.go:247-292 | a NOERROR at a cut is a referral or adds records only |
| Referrals.CutRefers | internal/handler/handler.go:247-292 | it adds exactly the DS records when they are asked for, else it refers to the cut with its name servers, DS records and addresses |
| Handler.RequestContext.AnswerAt | internal/handler/handler.go:303-422 | the steps are the response `AtLocation`, whose meaning is in the next two rows |
| Outcomes.LocationKinds | internal/handler/handler.go:303-422 | a NOERROR at a location adds records and nothing else, or is NODATA |
| AnswerContents.AnswerIsStored | internal/handler/handler.go:102-422 | for every type: the aliases as stored, then the records of the set at the location the aliases lead to, one for each item or address that yields one, in order, with its own contents, owner and ttl; and the rcode, SOA and denial that go with them |
| AnswerContents.NothingIsDenied | internal/handler/handler.go:131-212 | at a name with nothing: the aliases as stored, the SOA, and NXDOMAIN or NOERROR, or the denial of exactly that name |
| AnswerContents.FollowingEnds | internal/handler/handler.go:102-246 | aliases can be followed to a name that leads no further, or as long as the bound allows |
| Handler.RequestContext.Resolve | internal/handler/handler.go:102-424 | the loop leaves the response whose records `AnswerContents.AnswerIsStored` reads off the store, and looks up at most eleven names, as many as the chain has |
| Handler.RequestContext.HandleRequest | internal/handler/handler.go:62-435 | NOTAUTH, SERVFAIL, or that response; with DNSSEC its sections signed set by set and otherwise conserved |
| AliasChains.AnswerIsAliasChain | internal/handler/handler.go:225-246 | an unflattened answer is a contiguous alias chain from the query name |
| AliasChains.TooLongIffHops | internal/handler/handler.go:104-116 | in either mode the bound is met exactly by chains of eleven aliases inside the zone |
| AliasChains.LongChainsFail | internal/handler/handler.go:106-115 | in either mode such a chain is answered SERVFAIL with nothing in any section |
| AliasChains.CyclesFail | internal/handler/handler.go:106-115 | in either mode so is every cycle, of whatever length |
| Outcomes.NxdomainIffMissing | internal/handler/handler.go:131-213 | NXDOMAIN exactly when the chain ends at a name with nothing at or below it, no wildcard at its encloser and no cut there; it carries the SOA |
| Outcomes.SignedNeverNxdomain | internal/handler/handler.go:712-714 | a signed response is never NXDOMAIN |
| Outcomes.NoerrorKinds | internal/handler/handler.go:118-421 | NOERROR, NXDOMAIN or SERVFAIL; NOERROR with records behind the aliases holds nothing else, and without them is exactly one of NODATA, a referral, or an alias whose target is outside, its answer the aliases |
| Referrals.ReferralsPointToCut | internal/handler/handler.go:156-292 | a referral names a cut at or above the last name of the chain, exactly that cut's name servers and its DS records, and exactly the addresses, of both kinds, that the zone has for those servers |
| Referrals.EncloserIsAbove | internal/handler/handler.go:156-186 | the closest encloser, written out in full, is an ancestor of the query name |
| Flattening.ChainsCompared | internal/handler/handler.go:237-245 | the chains of the two modes are the same exactly when the chain is faithful |
| Flattening.RecordsMoved | internal/handler/handler.go:300-302 | flattening moves the records to the query name and changes nothing else in them |
| Flattening.ArrivesElsewhere | internal/handler/handler.go:102-116 | a chain of aliases that arrives does so at another name than the query's |
| Flattening.FlatteningAgreesIff | internal/handler/handler.go:100-424 | for every type: same rcode, authority and additional, and the last RRset under the query name, exactly when each target is in the zone as written as well as qualified, an eleventh alias stays inside, no alias leads a DS query to a cut with DS records, and the CAA set of the last name gives the records of the query name's |
| Flattening.FlatteningAgreesIffFaithful | internal/handler/handler.go:100-424 | for every type but DS and CAA the first two alone decide |
| Flattening.QualifiedIsFaithful | internal/handler/handler.go:239-244 | so for fully qualified targets and at most ten aliases |
| FlatteningExamples.UnqualifiedTargetDisagrees | internal/handler/handler.go:239-244 | a concrete zone where a target without its final dot makes the modes differ |
| FlatteningExamples.EleventhAliasDisagrees | internal/handler/handler.go:104-116 | a concrete zone of eleven aliases, the last to another zone, where they differ |
| FlatteningExamples.DsKeepsTheCut | internal/handler/handler.go:266-269 | a concrete faithful chain to a cut whose DS records keep their name |
| FlatteningExamples.CaaStartsAgain | internal/handler/handler.go:300-302 | a concrete faithful chain to a name with a CAA set that the query name has not |
| SignedAnswers.DenialAdded | internal/handler/handler.go:703-730 | the record a denial adds: its owner, the very next name, and the types such a name may have but for the one denied |
| SignedAnswers.SignedAgreesIff | internal/handler/handler.go:703-730 | a signed response is the unsigned one with denials added and NOERROR for NXDOMAIN, exactly unless an ANAME search for a query at the apex failed |
| SignedAnswers.ApexFailureHidden | internal/handler/handler.go:708-709 | a concrete zone where that failure is answered as NODATA once signed |

## Left out

- Redis, MySQL, the HTTP API, logging, configuration files and sockets: input and output only.
- The insides of the radix tree, the caches, maxminddb and the trigonometry of distances: foreign code, used through their meaning; a distance is a real number.
- Cryptography: a signature is an uninterpreted function of the set that succeeds. Loading keys is a parameter.
- Freshness and stale serving of record sets: a read of a record set is a read of redis. The code compares the clock with a duration there.
- The cache of health statuses and the upstream connections: not part of this model.
- Handler.RequestContext.HandleRequest: takes one clock reading and one answer per lookup for the whole request; the code reads them again each time.
- RateLimit.RateLimiter.CanHandle: calls for one key are sequential and read the clock once; the limiter of a first request is created without a lock in the code.
- Storage.DataHandler.GetZone: one caller without interruption; interleaved callers are in `ZoneCache`, for one zone.
- Geotools.GetMinimumDistance: takes masks whose white entries come first, as the all-white one of the only call; on any other the last white entry is indexed past the distances gathered, and the code panics.
- Healthcheck.FilterHealthcheck: reads one snapshot of the statuses. The comparison of configurations in `Transfer` is left out; a new item starts at status 0.
- Caa.FindCaaIsNearest: takes the apex or a name that some location answers, as the query loop does, ending in a nonempty label, in a zone whose name ends in a dot.
- Flattening.FlatteningAgreesIff: takes the SOA and DNSKEY records of a zone to be owned by its apex, and does not ask that they move.
- ZoneCache.DeletionEndsStalenessIff: speaks of cached copies only; what a failed load falls back to was cached when its call looked, as `ZoneCache.ReturnsAreBounded` says.
- SignedAnswers.SignedAgreesIff: compares with the flattened response, since signed zones always flatten, and before signatures are added.
- AliasChains.AnswerIsAliasChain: leaves out SOA and DNSKEY, whose records belong to the apex.
- WorkerPool.StopReturns: handlers return; `Worker.Stop`, which nothing calls, and a second `Stop`, which panics, are not modelled.
- Record classes and the fields of MX, SRV, CAA, TLSA and DS records beyond the host: carried along unread.
