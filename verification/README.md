# Verified models of the registry's protocols

This project models, in Dafny, the parts of the Terraform registry backend whose guarantees
span whole runs: the provider mirror sync, archive extraction, the two login-state stores, the
two audit shippers, the background-job protocols, the load-test recorder and the egress guard.
Each component has a module. Code that changes state in place is a class or a method proved
against a specification function, and the theorems are about that function, over every input,
every failure pattern or every interleaving. `dafny verify dfyconfig.toml` checks everything.

## How the models read

- **Failures.** Everything that can fail is a parameter: an answer of the operating system, a
  broken download, a refused database write, a write stored with its acknowledgement lost. A
  process that dies in the middle of a sync is a sync all of whose remaining calls fail.
- **Concurrency.** A protocol is a function from a state and a step to the next state, where a
  step is one critical section or one atomic access of one goroutine. A step that is not enabled
  leaves the state alone, so a run is any sequence of steps and theorems quantify over all of them.
- **Time** is a monotone integer clock. Each state-store operation reads it once.
- **Upstream** of a mirror is a fixed function from version and platform to a package.
- **The database** gives every version record a fresh id, refuses a second record of the same
  version or of the same platform of a version, and deletes platform records with their version. A
  claim of scan rows locks them until it commits or rolls back, other statements may lock rows too,
  and claims skip locked rows.

## What the proofs show about the code

Where a promise fails, the model keeps the code as it is, shows the failing run and proves exactly
when the promise holds.

- *Mirror sync.* After any history, one sync in which nothing fails completes every listed version if
  and only if, for each version without a record, the entry that creates it offers whatever any entry
  of that name does (`SyncCompletesIff`): so for every listing that names no version twice, while a
  second entry of a name can be left out (`RepeatedVersionLeavesPlatform`). Two such syncs always
  complete every version, and the next is idle (`SyncConverges`). Stored bytes agree with the recorded checksum over every history if and only if no kept
  platform that can be stored is listed twice (`BackedIffNoRepeats`): a failing upload of the second
  takes the object of the first (`RepeatedPlatformLosesObject`). They agree with the announced checksum
  if and only if every version either had SHA256SUMS or keeps no platform whose checksum stands only
  there (`AnnouncementHeldIff`): without the file altered bytes are recorded
  (`UnfetchedSumsLetAlteredBytesIn`). The number reported as new versions also counts every platform
  record added to an old version (`VersionsNewCounts`).
- *Extraction.* Files are opened without truncation, so a repeated name keeps the tail of the longer
  body (`RepeatedNameKeepsTail`); the last entry on a target is intact if and only if nothing longer was
  there before it (`ExtractedIntactIff`).
- *State stores.* The two implementations of one interface differ on a second Load, on a Reserve after
  a Load, on a Load of a reservation and at the expiry instant, and on nothing else (`StoresAgreeIff`).
- *Webhook shipper.* A request runs under two limits, the context's and the client's. The flush gives
  its context the configured timeout without the default that the client gets, so the configured one
  alone decides (`DeliveredExactly`), and a batching shipper delivers anything at all if and only if a
  positive one is configured (`DeliversIffTimeout`); direct sends do get the default
  (`DirectSendsArrive`). Entries queued after the processor quits stay in the channel
  (`NothingFlushedAfterQuit`).
- *File shipper.* The removal of the slot above the highest backup finds nothing: what drops the
  oldest backup is the rename onto it (`PruningFindsNothing`).
- *Scanner.* A Start already stopped that then fails clears the flag of its successor, and a third
  Start loops beside the second on one channel (`LateFailureGivesTwoLoops`); the comment above Start promises
  that it is safe to call any number of times.
- *Scan claims.* A claim skips locked rows, so a cycle can end while rows are pending, beside a claim
  that then fails (`DrainedBesideFailedClaim`) or beside a rescan request, which locks the row and
  leaves it alone (`DrainedBesideRescan`): it saw an empty queue if and only if no other claim was in
  flight and no other statement had locked a pending row (`DrainedSawEmptyQueue`).
- *JWT rotation.* With rotations closer than the overlap, the earlier timer clears the later outgoing
  secret (`CloseRotationsCutTheOverlap`), against the comment that it stays valid for the overlap. The
  first read is not checked for emptiness, as later ones are (`NeverEmptyIff`).
- *Key cache.* A write stored but not acknowledged leaves the row behind the cache for as long as
  upstream serves the cached key or nothing, however often it is asked (`LostAckLeavesRowBehind`).
- *Redirects.* Every hop is compared with the request that began the chain, not with the hop before it.
  So a step back from https to http keeps credentials exactly when the chain began at that host over
  http (`DowngradeKeepsIff`, `UpgradeThenDowngrade`), although the comment says that a downgrade never
  carries them.
- *Recorder.* The error map's increments can be lost but never overcount. A message's count is exact
  if and only if no store overwrote a value it had not loaded (`ErrorCountExactIff`), and exact under
  every schedule if and only if at most two calls fail with it (`AlwaysExactIff`).

## Model

| member | source | states |
|---|---|---|
| MirrorConvergence.SyncConverges | backend/internal/jobs/mirror_sync.go:540-733 | After any history of syncs against any slash-free upstreams, with every call allowed to fail, and of removed records: one sync in which nothing fails completes every listed version exactly when one entry is enough for each, and the next is then idle; in any case two complete every version, and a third changes no version, platform or object and reports zero new versions |
| MirrorConvergence.SyncCompletesIff | backend/internal/jobs/mirror_sync.go:540-733 | From any store one sync in which nothing fails completes every listed version if and only if, for each version without a record, the first entry that creates it yields whatever any entry of that name yields |
| MirrorConvergence.EnoughAfterOne | backend/internal/jobs/mirror_sync.go:540-733 | After one such sync that condition holds, whatever the listing |
| MirrorConvergence.RepeatedVersionLeavesPlatform | backend/internal/jobs/mirror_sync.go:552-729 | A listing that names a version twice with different platforms: one sync leaves the second one's platform unrecorded |
| MirrorConvergence.HistoryRegular | backend/internal/jobs/mirror_sync.go:540-733 | Over any such history ids stay fresh and recorded platforms slash-free, whatever fails |
| MirrorConvergence.EveryKeptPlatformRecorded | backend/internal/jobs/mirror_sync.go:540-733 | Where upstream delivers what it lists and one entry is enough, from any store one such sync records every selected platform of every entry |
| MirrorConvergence.SyncCompletes | backend/internal/jobs/mirror_sync.go:552-729 | For a listing that names no version twice one sync in which nothing fails completes every version, whatever records and objects were there |
| MirrorConvergence.SyncIdle | backend/internal/jobs/mirror_sync.go:552-729 | A sync that finds every version complete changes nothing and counts nothing, although it may create and delete version records on the way |
| MirrorConvergence.VersionsReliable | backend/internal/jobs/mirror_sync.go:552-729 | The loop over any listing completes the entries of listed versions, gives each new version exactly what the first entry that creates it yields, and undoes nothing |
| MirrorConvergence.NewMade | backend/internal/jobs/mirror_sync.go:841-916 | A version created by an entry has exactly the platforms that entry yields |
| MirrorConvergence.OnlyDelivered | backend/internal/jobs/mirror_sync.go:889-899 | When nothing fails the platform loop records only what upstream delivers |
| MirrorConvergence.VersionReliable | backend/internal/jobs/mirror_sync.go:556-728 | One pass completes its version, keeps the other versions and all platform records, and is idle where there was nothing to add |
| MirrorConvergence.ExistingReliable | backend/internal/jobs/mirror_sync.go:629-717 | The recovery path fetches the missing kept platforms, adds every one upstream delivers and nothing when none is missing |
| MirrorConvergence.NewReliable | backend/internal/jobs/mirror_sync.go:760-950 | The path for a new version ends complete: recorded with all delivered platforms, or not recorded because there is none |
| MirrorConvergence.FillReliable | backend/internal/jobs/mirror_sync.go:850-916 | If upstream delivers any kept platform, the new record stays and has all delivered ones |
| MirrorConvergence.FillIdle | backend/internal/jobs/mirror_sync.go:889-916 | With nothing delivered, the record made for the version is deleted and nothing else changed |
| MirrorConvergence.PlatformsReliable | backend/internal/jobs/mirror_sync.go:889-899 | The platform loop records every delivered platform and counts at least one whenever a record was missing |
| MirrorCounts.VersionsNewCounts | backend/internal/jobs/mirror_sync.go:540-730 | For every listing, VersionsNew is never more than the version records added plus the platform records added to versions that were there before, whatever fails, and exactly that when nothing fails |
| MirrorCounts.VersionsCounted | backend/internal/jobs/mirror_sync.go:552-729 | The same balance along the loop over versions |
| MirrorCounts.VersionCounted | backend/internal/jobs/mirror_sync.go:556-728 | The same balance for one entry on either path, also when an earlier entry created its version |
| MirrorCounts.PlatformsCounted | backend/internal/jobs/mirror_sync.go:706-716 | The platforms counted are at most the records added, and all of them when nothing fails |
| MirrorIntegrity.RecordsStayBacked | backend/internal/jobs/mirror_sync.go:1000-1104 | Over any sequence of syncs, each against its own upstream that keeps no storable platform twice, with every call failing at will, and of removals, every platform record's path holds bytes with the recorded SHA-256 |
| MirrorLimits.BackedIffNoRepeats | backend/internal/jobs/mirror_sync.go:889-899 | Against one upstream, records stay backed over every history from every sound store if and only if no kept platform that can be stored is listed twice |
| MirrorLimits.RepeatedPlatformLosesObject | backend/internal/jobs/mirror_sync.go:709-716 | For every version whose kept platforms repeat a storable one, a sync that leaves its record without its object |
| MirrorLimits.AnnouncementHeldIff | backend/internal/jobs/mirror_sync.go:1041-1054 | For every pattern of fetched SHA256SUMS, stored bytes have the announced checksum over every history from every sound store if and only if each version had the file or keeps no platform that depends on it |
| MirrorLimits.UnfetchedSumsLetAlteredBytesIn | backend/internal/jobs/mirror_sync.go:689-716 | Where the file was not fetched, or the first platform has no description, a sync that records altered bytes for a platform that depends on it |
| MirrorLimits.AnnouncedEnforcedIff | backend/internal/jobs/mirror_sync.go:1041-1054 | With SHA256SUMS at hand every announced checksum is enforced; without it, exactly those not announced there alone |
| MirrorIntegrity.PlatformSoundIff | backend/internal/jobs/mirror_sync.go:1000-1104 | An unrecorded platform is synced soundly under every fault if and only if every file its checks accept meets the checksum required |
| MirrorIntegrity.RecordsMatchPackage | backend/internal/jobs/mirror_sync.go:1041-1054 | Against one upstream, whatever fails, the stored bytes of every record have the checksum its package description announces |
| MirrorLimits.RecordsMatchAnnouncement | backend/internal/jobs/mirror_sync.go:1041-1054 | Where the versions that depend on SHA256SUMS had it, the stored bytes of every record have the checksum announced in either place, whatever else fails |
| MirrorIntegrity.NoSharedObject | backend/internal/jobs/mirror_sync.go:1065-1083 | No two platform records point at one object |
| MirrorIntegrity.PathsDiffer | backend/internal/jobs/mirror_sync.go:1065-1066 | Storage paths of different versions or platforms differ |
| MirrorIntegrity.PlatformSound | backend/internal/jobs/mirror_sync.go:1000-1104 | Syncing a platform that is unrecorded, or impossible to store, keeps every record backed by its object, however the call fails |
| MirrorIntegrity.PlatformsSound | backend/internal/jobs/mirror_sync.go:889-899 | So does the loop over the platforms of a version |
| MirrorIntegrity.FillSound | backend/internal/jobs/mirror_sync.go:850-916 | So does creating a version, filling it and taking it away again, whichever of those calls fails or loses its acknowledgement |
| MirrorIntegrity.ExistingSound | backend/internal/jobs/mirror_sync.go:629-717 | So does the recovery path of a recorded version |
| MirrorIntegrity.RecordedExactly | backend/internal/jobs/mirror_sync.go:636-647 | Among slash-free platforms the set of `os/arch` names identifies exactly the recorded platforms |
| MirrorIntegrity.MissingExactly | backend/internal/jobs/mirror_sync.go:641-647 | The platforms to fetch are exactly the kept ones whose name is not recorded, repeated only where the kept list repeats |
| MirrorIntegrity.DeleteSound | backend/internal/jobs/mirror_sync.go:901-916 | Deleting a version with its platform records leaves no record without an owner |
| MirrorSync.Registry.constructor | backend/internal/jobs/mirror_sync.go:76-100 | The records and objects a sync starts from |
| MirrorSync.Registry.SyncPlatformBinary | backend/internal/jobs/mirror_sync.go:1000-1104 | The new store and result of one platform's download, check, upload and record, for every failure |
| MirrorSync.PlatformOkIff | backend/internal/jobs/mirror_sync.go:1000-1104 | One platform succeeds exactly when no call fails, the bytes are accepted and there is no record yet |
| MirrorSync.AcceptableIff | backend/internal/jobs/mirror_sync.go:1041-1062 | Bytes are accepted exactly when they have the description's checksum or, where it gives none, the one SHA256SUMS gives, if any, and the filename passes |
| MirrorSync.SafeFilenameIff | backend/internal/validation/filename.go:17-28 | A filename passes exactly when it is not empty and holds no slash, backslash or two dots in a row |
| MirrorSync.StoragePathReads | backend/internal/jobs/mirror_sync.go:1064-1066 | Where an object is stored, spelled out |
| MirrorSync.DownloadRecorded | backend/internal/jobs/mirror_sync.go:1064-1101 | A download in which nothing fails is stored at that path and recorded with its filename and checksum |
| MirrorSync.AcceptedLeaves | backend/internal/jobs/mirror_sync.go:1068-1101 | What accepted bytes leave behind when the upload or the record fails |
| MirrorSync.RefusedRecordLeavesObject | backend/internal/jobs/mirror_sync.go:1099-1101 | When the record is refused the object stays without one |
| MirrorSync.Registry.SyncEach | backend/internal/jobs/mirror_sync.go:889-899 | The store and the count after the loop over platforms |
| MirrorSync.Registry.CreateAndFill | backend/internal/jobs/mirror_sync.go:841-916 | The store and result of creating a version, filling it and removing it if empty |
| MirrorSync.Registry.SyncProviderVersion | backend/internal/jobs/mirror_sync.go:760-916 | The store and result of syncing a version the database did not list |
| MirrorSync.NewRefused | backend/internal/jobs/mirror_sync.go:776-786 | A version without a listed platform or a description of its first is left alone |
| MirrorSync.LostVersionAck | backend/internal/jobs/mirror_sync.go:850-852 | A new record whose acknowledgement is lost stays, without platforms, as a failure |
| MirrorSync.UnfetchedSums | backend/internal/jobs/mirror_sync.go:801-805 | When SHA256SUMS cannot be fetched no checksum is known from it |
| MirrorSync.Registry.ListMissing | backend/internal/jobs/mirror_sync.go:636-647 | The kept platforms with no record, in listing order |
| MirrorSync.Registry.SyncListedVersion | backend/internal/jobs/mirror_sync.go:629-717 | The store and count of completing a version the database listed |
| MirrorSync.Registry.SyncOneVersion | backend/internal/jobs/mirror_sync.go:556-728 | Which of the two paths a version takes, by the listing made at the start |
| MirrorSync.Registry.SyncAll | backend/internal/jobs/mirror_sync.go:540-730 | The store and VersionsNew after the loop over all versions |
| MirrorSync.ProviderRefusedIff | backend/internal/jobs/mirror_sync.go:540-545 | The sync fails exactly when there is no listing of versions, and then changes nothing |
| PlatformFilter.FilterPlatforms | backend/internal/jobs/mirror_sync.go:41-73 | The platforms whose lower-cased name is among the trimmed, lower-cased filter entries, all of them when the filter is absent, malformed or empty |
| PlatformFilter.KeptExactly | backend/internal/jobs/mirror_sync.go:41-73 | A platform is kept if and only if it is listed and selected, and repeated if and only if it was repeated and is selected |
| PlatformFilter.EntryKeeps | backend/internal/jobs/mirror_sync.go:57-69 | A filter entry, whatever blanks surround it, keeps exactly the listed platforms it spells as os, slash, arch in any letter case |
| PlatformFilter.ListKeeps | backend/internal/jobs/mirror_sync.go:57-69 | A filter keeps what any one of its entries keeps |
| PlatformFilter.KeptAll | backend/internal/jobs/mirror_sync.go:42-55 | An absent, malformed or empty filter keeps everything |
| Shasums.ParseShasumFile | backend/internal/jobs/mirror_sync.go:1107-1122 | The map the lines give, later lines replacing earlier ones |
| Shasums.ParseOfPrint | backend/internal/jobs/mirror_sync.go:1107-1122 | Parsing a printed file gives what its lines say, with any padding and blank lines |
| Shasums.CutExact | backend/internal/jobs/mirror_sync.go:1115-1119 | A line is cut at its first two spaces in a row, and ignored when it has none |
| Shasums.ShasumsRoundTrip | backend/internal/jobs/mirror_sync.go:1107-1122 | Any map of checksums, printed in any line order with any blank lines, is read back exactly |
| SingleFlight.SyncsNeverOverlap | backend/internal/jobs/mirror_sync.go:225-249 | In every interleaving of ticks, triggers, failed lookups and ending syncs, a mirror is marked exactly when a goroutine owns it, and never do two |
| SingleFlight.NoMarkLeaks | backend/internal/jobs/mirror_sync.go:1143-1176 | When every goroutine is done no mirror is marked |
| SingleFlight.MovesMakeProgress | backend/internal/jobs/mirror_sync.go:225-249 | Every move of an unfinished goroutine brings all of them nearer to being done |
| SingleFlight.TickStarts | backend/internal/jobs/mirror_sync.go:225-239 | A tick passes over a marked mirror, and marks a free one and starts its sync |
| SingleFlight.TickRuns | backend/internal/jobs/mirror_sync.go:211-240 | From any state a tick can come, mark all its mirrors and be done |
| SingleFlight.TriggerStarts | backend/internal/jobs/mirror_sync.go:1143-1176 | A trigger is turned away from a marked mirror, starts the sync of a free one whose configuration is found, and otherwise leaves no mark |
| SingleFlight.TriggerRuns | backend/internal/jobs/mirror_sync.go:1143-1176 | From any state a trigger of a free mirror can come and start its sync |
| SingleFlight.InvStep | backend/internal/jobs/mirror_sync.go:225-249 | Every step keeps the number of owners of each mirror equal to its mark |
| SingleFlight.ActiveSyncs.TryMark | backend/internal/jobs/mirror_sync.go:1145-1152 | Marks a mirror and succeeds exactly when it was not marked |
| SingleFlight.ActiveSyncs.Unmark | backend/internal/jobs/mirror_sync.go:245-249 | Removes that mark and no other |
| Archive.ExtractionConfined | backend/internal/archiver/tarball.go:49-97 | For every archive and every operating-system failure, nothing outside the destination changes, nothing disappears or changes kind, and when the destination and its ancestors exist nothing is created outside it |
| Archive.ExtractionBudget | backend/internal/archiver/tarball.go:47-97 | At most 100 MB and one byte written and 100000 entries handled however extraction ends; success means an intact archive, every entry inside and all regular bytes within 100 MB |
| Archive.ExtractedContents | backend/internal/archiver/tarball.go:73-96 | After success each path holds the bodies the archive gave it, each overlaid on the one before; other paths are as they were |
| Archive.ExtractedExactly | backend/internal/archiver/tarball.go:78-95 | A regular entry that alone names its target, absent before, is there byte for byte |
| Archive.ExtractedIntactIff | backend/internal/archiver/tarball.go:78-95 | After success the last entry on a target is there byte for byte if and only if neither the file before nor an earlier entry there is longer |
| Archive.RepeatedNameKeepsTail | backend/internal/archiver/tarball.go:82-87 | A shorter body under a repeated name leaves the tail of the longer one |
| Archive.ExtractionSucceedsIff | backend/internal/archiver/tarball.go:36-99 | When the operating system refuses nothing, extraction succeeds if and only if the archive is intact, within both budgets, all inside, and no path is wanted as directory and as file |
| Archive.NoClashStep | backend/internal/archiver/tarball.go:73-96 | Handling an entry neither creates nor hides a conflict for the entries after it |
| Archive.GrantedTurn | backend/internal/archiver/tarball.go:63-96 | When nothing is refused, exactly when one entry passes, and exactly which nodes it adds |
| Archive.ExtractionStops | backend/internal/archiver/tarball.go:49-97 | An extraction that fails at an entry has done what extracting the entries before it does, and then that entry's turn |
| Archive.PrefixExtract | backend/internal/archiver/tarball.go:49-97 | Extracting the first entries is running the loop over them |
| Archive.ExtractionRefused | backend/internal/archiver/tarball.go:37-61 | A relative destination and an unreadable stream are refused with nothing changed; a read failure comes after all entries, the entry limit after 100000 |
| Archive.TurnErrors | backend/internal/archiver/tarball.go:63-96 | What each error of an entry says: a name outside changes nothing, a file that does not open is a directory or was refused, the size error means over 100 MB |
| Archive.BrokenCopyLeavesPrefix | backend/internal/archiver/tarball.go:86-95 | A copy that breaks off or hits the limit leaves as many of the body's first bytes as it counted |
| Archive.MakeFromCounts | backend/internal/archiver/tarball.go:74-81 | No more directories are made than the system allows, and where no file is in the way one too many is what fails |
| Archive.MakeFromSucceeds | backend/internal/archiver/tarball.go:74-81 | Making directories succeeds exactly when no file is on the way, and then all of them exist |
| Archive.FileSystem.constructor | backend/internal/archiver/tarball.go:36-48 | The tree extraction starts from |
| Archive.FileSystem.MkdirAll | backend/internal/archiver/tarball.go:74-81 | The tree after making a directory and its missing ancestors until one is refused |
| Archive.FileSystem.HandleEntry | backend/internal/archiver/tarball.go:63-96 | The tree, the byte count and the error after one entry |
| Archive.FileSystem.ExtractTarGz | backend/internal/archiver/tarball.go:36-99 | The tree, the counts and the error after the whole loop |
| Paths.ContainedIffPrefix | backend/internal/archiver/tarball.go:63-71 | The Join and Rel check accepts a name exactly when the destination's components are a prefix of the target's |
| Paths.TargetWalks | backend/internal/archiver/tarball.go:66-67 | The target is reached by walking the name's components from the cleaned destination |
| Paths.CleanTwice | backend/internal/archiver/tarball.go:66-67 | Cleaning is idempotent and keeps the components |
| Paths.LeadingDots | backend/internal/archiver/tarball.go:69-71 | The string test on the relative path holds exactly when its first component is two dots |
| Paths.CleanRules | backend/internal/archiver/tarball.go:66-67 | For any text around: several slashes are one, a single dot goes, and a component followed by two dots goes with them |
| Paths.RootRule | backend/internal/archiver/tarball.go:66-67 | Two dots at the root stay at the root |
| Paths.TargetRules | backend/internal/archiver/tarball.go:66-67 | The same rules hold of an entry name |
| Paths.TargetLeading | backend/internal/archiver/tarball.go:66-67 | A leading slash or dot in a name makes no difference |
| Paths.TargetOfClimb | backend/internal/archiver/tarball.go:66-67 | A name of k steps up and then a plain path lands that path below the destination without its last k components, at most at the root |
| Paths.ContainedClimbIff | backend/internal/archiver/tarball.go:68-71 | Such a name is accepted if and only if it comes back down through the components it climbed out of |
| StateStore.StoresAgreeIff | backend/internal/auth/statestore.go:37-55 | On every run with positive times to live the two stores give the same answers if and only if no operation is of the listed diverging kinds |
| StateStore.DisciplineSuffices | backend/internal/auth/statestore.go:37-55 | Load followed by Delete on its key, no Load of a reservation and no operation on an expiry instant make the stores interchangeable |
| StateStore.MirrorStep | backend/internal/auth/statestore_redis.go:53-103 | One operation on corresponding stores answers alike exactly when it does not diverge, and they then correspond again |
| StateStore.SweepsInvisible | backend/internal/auth/statestore_memory.go:37-55 | Cleanup passes inserted anywhere in a run change no answer of any operation |
| StateStore.SweepKeeps | backend/internal/auth/statestore_memory.go:43-50 | A cleanup pass keeps exactly the entries not expired at the instant it read |
| StateStore.MemoryAnswersExactly | backend/internal/auth/statestore_memory.go:57-105 | In every run a Load answers the session last put under its key up to the end of its time to live, and a Reserve succeeds from then on |
| StateStore.RedisAnswersExactly | backend/internal/auth/statestore_redis.go:52-103 | In every run a Load answers the session last saved under its key, once, before its time to live ends |
| StateStore.ReservationsSpaced | backend/internal/auth/statestore_memory.go:91-105 | Two successful reservations of a key, with no Save or Delete of it between, are at least the first one's time to live apart |
| StateStore.ReservationStands | backend/internal/auth/statestore_memory.go:91-105 | Until then the reservation's entry survives every other operation and sweep |
| StateStore.ConsumedByLastLoad | backend/internal/auth/statestore_redis.go:61-87 | Under the Load-then-Delete discipline a key is consumed only while the Load is the latest operation on it |
| StateStore.MemoryStateStore.constructor | backend/internal/auth/statestore_memory.go:25-35 | Starts empty |
| StateStore.MemoryStateStore.Save | backend/internal/auth/statestore_memory.go:58-66 | The entry replaces what the key had, expiring after its time to live |
| StateStore.MemoryStateStore.Load | backend/internal/auth/statestore_memory.go:69-81 | The live session, kept; an expired one is dropped and not returned |
| StateStore.MemoryStateStore.Delete | backend/internal/auth/statestore_memory.go:84-89 | The key is gone |
| StateStore.MemoryStateStore.Reserve | backend/internal/auth/statestore_memory.go:94-105 | True and a marker when no live entry exists, false and no change otherwise |
| StateStore.MemoryStateStore.Cleanup | backend/internal/auth/statestore_memory.go:43-50 | Exactly the entries expired at the instant read are dropped |
| StateStore.RedisStateStore.constructor | backend/internal/auth/statestore_redis.go:26-50 | Starts empty |
| StateStore.RedisStateStore.Save | backend/internal/auth/statestore_redis.go:53-59 | The key holds the session until its time to live ends |
| StateStore.RedisStateStore.Load | backend/internal/auth/statestore_redis.go:62-87 | The value, removed in the same step; a reservation's value does not decode |
| StateStore.RedisStateStore.Delete | backend/internal/auth/statestore_redis.go:90-92 | The key is gone |
| StateStore.RedisStateStore.Reserve | backend/internal/auth/statestore_redis.go:97-103 | Sets the key only if it is absent, and says whether it did |
| WebhookBatch.BatchingConserves | backend/internal/audit/shipper.go:231-309 | In every run accepted entries are the flushed ones, then the batch, then the channel, in order; each flush has one to BatchSize entries; after the processor quits the unflushed ones are those in the channel |
| WebhookBatch.FlushedOnce | backend/internal/audit/shipper.go:268-288 | No entry is in two flushes, nor flushed and still queued |
| WebhookBatch.FlushedWhenFull | backend/internal/audit/shipper.go:242-248 | In every run a received entry sets off a flush exactly when it fills the batch |
| WebhookBatch.QueuedIff | backend/internal/audit/shipper.go:291-300 | An entry is queued exactly when batching is on and fewer than a thousand wait |
| WebhookBatch.CloseEnds | backend/internal/audit/shipper.go:255-262 | Close and the next turn end the processor, the batch flushed and the channel as it was |
| WebhookBatch.QuitsOnlyWhenClosed | backend/internal/audit/shipper.go:255-262 | The processor quits only once close was signalled |
| WebhookBatch.TickFlushesAll | backend/internal/audit/shipper.go:249-254 | Right after a tick every accepted entry not in the channel has been flushed |
| WebhookBatch.NothingFlushedAfterQuit | backend/internal/audit/shipper.go:255-262 | After the processor quits nothing is flushed, while Ship still queues |
| WebhookBatch.EveryShipCounted | backend/internal/audit/shipper.go:291-309 | The entries queued and those sent directly are together, as a multiset, those shipped |
| WebhookBatch.DeliveredExactly | backend/internal/audit/shipper.go:268-288 | In every run the delivered batches are, in order, exactly the flushed ones answered with success within the configured timeout; the client default decides nothing |
| WebhookBatch.DeliversIffTimeout | backend/internal/audit/shipper.go:209-212 | A batching shipper has a run that delivers a batch if and only if a positive timeout is configured |
| WebhookBatch.NoTimeoutDeliversNothing | backend/internal/audit/shipper.go:280-287 | With none configured no flush is delivered, however quick the endpoint |
| WebhookBatch.DirectSendsArrive | backend/internal/audit/shipper.go:302-309 | With none configured every direct send answered within ten seconds arrives |
| WebhookBatch.DirectArrivesIff | backend/internal/audit/shipper.go:209-216 | A direct send arrives exactly when it is answered with success within the configured timeout, or ten seconds when that is zero |
| WebhookBatch.TimeoutDeliversAll | backend/internal/audit/shipper.go:280-287 | If every flush is answered in time every flushed batch is delivered |
| WebhookBatch.WebhookShipper.constructor | backend/internal/audit/shipper.go:208-228 | Empty queues, a processor only when batching is on |
| WebhookBatch.WebhookShipper.Ship | backend/internal/audit/shipper.go:291-309 | Queued when batching and there is room, sent directly otherwise |
| WebhookBatch.WebhookShipper.FlushBatch | backend/internal/audit/shipper.go:268-288 | The batch is flushed once and emptied, delivered or not |
| WebhookBatch.WebhookShipper.OnEntry | backend/internal/audit/shipper.go:242-248 | The oldest queued entry joins the batch, which is flushed when full |
| WebhookBatch.WebhookShipper.OnTick | backend/internal/audit/shipper.go:249-254 | A non-empty batch is flushed |
| WebhookBatch.WebhookShipper.OnClosed | backend/internal/audit/shipper.go:255-262 | The batch is flushed and the processor ends, the channel left as it is |
| WebhookBatch.WebhookShipper.Close | backend/internal/audit/shipper.go:337-342 | Close is signalled, once or many times |
| FileRotation.RotationKeepsSuffix | backend/internal/audit/shipper.go:365-422 | Over every run without faults, the backups from the highest slot down and then the current file are a suffix of all that was shipped, and each file is within the limit but for its last entry |
| FileRotation.BackupCount | backend/internal/audit/shipper.go:393-422 | The backups are as many as rotations, up to the larger of one and MaxBackups, in consecutive slots |
| FileRotation.NothingLostWithinRoom | backend/internal/audit/shipper.go:365-422 | Over every run without faults from no backups, every backup holds more than the limit, so nothing shipped is missing while the total is within the limit times the number of files, and nothing ever is without a limit |
| FileRotation.RotatesIff | backend/internal/audit/shipper.go:369-377 | A file is rotated exactly when it holds more than MaxSizeMB times 1048576 bytes; otherwise the entry joins it and no backup changes |
| FileRotation.AcceptedIff | backend/internal/audit/shipper.go:365-390 | An entry is written exactly when it was marshalled, the write works and the handle outlives any rotation due |
| FileRotation.RotationFaults | backend/internal/audit/shipper.go:393-422 | The handle is usable exactly when closing and opening work; a failing close changes no file |
| FileRotation.UnusableForever | backend/internal/audit/shipper.go:365-390 | Once the handle is lost nothing is written or rotated any more |
| FileRotation.ShiftExactly | backend/internal/audit/shipper.go:399-407 | Where every slot goes in the descending renames, whichever of them fail |
| FileRotation.FaultsOnlyLose | backend/internal/audit/shipper.go:365-422 | Whichever calls fail, what can be read back is a subsequence of what was shipped: in order, nothing twice |
| FileRotation.ShiftClosed | backend/internal/audit/shipper.go:399-407 | Where the descending renames put every slot |
| FileRotation.ShiftDropsOldest | backend/internal/audit/shipper.go:399-407 | A whole shift loses at most the oldest backup |
| FileRotation.PruningFindsNothing | backend/internal/audit/shipper.go:409-412 | The removal after the renames never finds a file to remove |
| FileRotation.RenameReads | backend/internal/audit/shipper.go:399-407 | One rename loses the block it lands on, nothing else, and keeps the order |
| FileRotation.FileShipper.constructor | backend/internal/audit/shipper.go:352-362 | The current file is opened, created when missing |
| FileRotation.FileShipper.Rotate | backend/internal/audit/shipper.go:393-422 | The slots after the rotation and whether the handle is usable, for every fault |
| FileRotation.FileShipper.Ship | backend/internal/audit/shipper.go:365-390 | Rotation when the file is over its limit, then the entry appended, and success only if it was |
| ScannerHandshake.HandshakeSoundIff | backend/internal/jobs/module_scanner_job.go:57-153 | Over every run at most one loop is unsignalled and the flag is set exactly when one is, if and only if no stopped Start clears the flag late |
| ScannerHandshake.StopSignalsAll | backend/internal/jobs/module_scanner_job.go:144-153 | In a sound state Stop signals every loop |
| ScannerHandshake.StartsIff | backend/internal/jobs/module_scanner_job.go:71-79 | A Start is turned away exactly while the flag is set, and otherwise waits on the channel of the moment |
| ScannerHandshake.StopsIff | backend/internal/jobs/module_scanner_job.go:144-153 | Stop does nothing unless started, and otherwise closes that channel and clears the flag |
| ScannerHandshake.StoppedLoopsLeave | backend/internal/jobs/module_scanner_job.go:128-133 | A loop can leave by its channel exactly when it was closed, and changes nothing else |
| ScannerHandshake.LateFailureGivesTwoLoops | backend/internal/jobs/module_scanner_job.go:81-132 | From any sound state without a loop, Start, Stop, Start, late failure, Start ends with two callers looping on one open channel |
| ScannerHandshake.SoundStep | backend/internal/jobs/module_scanner_job.go:71-153 | A step keeps the handshake sound exactly when it is no late clear |
| ScannerHandshake.ModuleScannerJob.constructor | backend/internal/jobs/module_scanner_job.go:34-47 | Not started, one open channel |
| ScannerHandshake.ModuleScannerJob.Begin | backend/internal/jobs/module_scanner_job.go:71-79 | Sets the flag and captures the channel unless already started |
| ScannerHandshake.ModuleScannerJob.ClearAfterFailure | backend/internal/jobs/module_scanner_job.go:82-111 | Clears the flag, whosever it is |
| ScannerHandshake.ModuleScannerJob.ClearOnDone | backend/internal/jobs/module_scanner_job.go:134-138 | Clears the flag, whosever it is |
| ScannerHandshake.ModuleScannerJob.Stop | backend/internal/jobs/module_scanner_job.go:144-153 | Closes the channel, makes the next one and clears the flag, if started |
| ScanClaims.ScansExclusive | backend/internal/jobs/module_scanner_job.go:156-192 | For any number of workers and any interleaving, with claims that lock, skip locked rows, commit or roll back, two hold one scan only if a stale reset took it from one of them, and none runs more scans at once than its limit |
| ScanClaims.OverstayedWereStale | backend/internal/db/repositories/module_scan_repository.go:289-303 | Such a reset found the row scanning for over thirty minutes and still held |
| ScanClaims.BatchSettlesBeforeNextClaim | backend/internal/jobs/module_scanner_job.go:179-191 | Between two claims of one worker every scan of the first batch settled, unless it crashed |
| ScanClaims.HeldUntilSettled | backend/internal/jobs/module_scanner_job.go:181-190 | A claimed scan is held until it settles or its worker crashes |
| ScanClaims.RowChanges | backend/internal/db/repositories/module_scan_repository.go:49-148 | A row becomes pending when enqueued while absent or finished, scanning when a claim on it commits, finished when a live scan stores its result, pending again after over thirty minutes; nothing else changes it |
| ScanClaims.ClaimTakes | backend/internal/jobs/module_scanner_job.go:156-170 | A claim takes as many free rows as there are, up to twice the worker count, which is two by default |
| ScanClaims.BatchCanFinish | backend/internal/jobs/module_scanner_job.go:179-190 | A claimed batch can always be brought to its end, every row finished and the worker free to claim again |
| ScanClaims.SettleLetsGo | backend/internal/jobs/module_scanner_job.go:186-187 | A settled scan is no longer held, and the others still are |
| ScanClaims.CrashedScanReturns | backend/internal/jobs/module_scanner_job.go:114-115 | The scan of a crashed worker goes back to the queue once it has been scanning for over thirty minutes |
| ScanClaims.DrainedSawEmptyQueue | backend/internal/jobs/module_scanner_job.go:166-177 | In every run a cycle that ended without error or cancellation had at its last claim, since which the worker stays drained, found every pending row locked by someone else, and the queue empty if and only if no other claim was in flight and no other statement had locked a pending row |
| ScanClaims.DrainedBesideFailedClaim | backend/internal/db/repositories/module_scan_repository.go:110-124 | From the start, beside a claim of the whole queue that fails, a cycle ends and leaves the rows pending |
| ScanClaims.DrainedBesideRescan | backend/internal/db/repositories/module_scan_repository.go:49-62 | From the start, beside a rescan request of a pending row, a cycle ends and leaves the row pending with nothing in flight |
| ScanClaims.InvStep | backend/internal/db/repositories/module_scan_repository.go:103-148 | Every step keeps the locks of claims and other statements disjoint and on pending rows, and held rows disjoint and scanning but for those a stale reset took |
| Recorder.MaximumAtQuiescence | backend/cmd/chaos-test/main.go:193-204 | For any number of calls and any schedule, at quiescence the maximum is that of zero and all latencies |
| Recorder.RetriesBounded | backend/cmd/chaos-test/main.go:198-204 | In every state a call has retried at most as often as other calls have swapped |
| Recorder.TotalsAtQuiescence | backend/cmd/chaos-test/main.go:193-218 | At quiescence successes are the calls without an error, failures those with one, the total both, and the sum that of all latencies |
| Recorder.QuiescenceReachable | backend/cmd/chaos-test/main.go:193-218 | From every reachable state all calls can still return |
| Recorder.CutExact | backend/cmd/chaos-test/main.go:208-211 | A message is counted under its first hundred characters |
| Recorder.ErrorCountsBounded | backend/cmd/chaos-test/main.go:206-214 | In every state a message's count is at most the failures recorded under it |
| Recorder.ErrorCountExactIff | backend/cmd/chaos-test/main.go:206-214 | Under every schedule a message's count is exact if and only if no store overwrote a value other than the one it had loaded; at quiescence exact means all calls that failed with it |
| Recorder.AlwaysExactIff | backend/cmd/chaos-test/main.go:206-214 | A message's count is exact under every schedule if and only if at most two calls fail with it |
| Recorder.ExactStep | backend/cmd/chaos-test/main.go:212-214 | A step keeps a count exact if and only if it was and the step is no stale store |
| Recorder.UpdatesCanBeLost | backend/cmd/chaos-test/main.go:212-214 | For any three calls that fail with one message, a schedule that loses an increment |
| Recorder.InvStep | backend/cmd/chaos-test/main.go:193-218 | Every access keeps all counters, the maximum and the error counts in step with the calls |
| SecretRotation.StaleSecretsAreRecent | backend/internal/auth/jwt.go:250-281 | In every run an accepted secret other than the current one was replaced at most the overlap ago |
| SecretRotation.CurrentAccepted | backend/internal/auth/jwt.go:201-206 | The current secret is accepted, and without a previous one nothing else |
| SecretRotation.EventTakesEffect | backend/internal/auth/jwt.go:257-276 | A file event takes effect exactly when the file is readable and its trimmed secret is neither empty nor the current one, and then that is the current one |
| SecretRotation.OverlapDefault | backend/internal/auth/jwt.go:216-218 | Five minutes unless a positive overlap is configured |
| SecretRotation.OverlapIsWholeIffRested | backend/internal/auth/jwt.go:274-280 | The outgoing secret is accepted until the earliest pending timer and not beyond: for the whole overlap exactly when no earlier timer is pending |
| SecretRotation.RestedMeansSpaced | backend/internal/auth/jwt.go:274-280 | Rotations more than the overlap apart leave no earlier timer pending, and none pending means at least that far apart |
| SecretRotation.SpacedRotationsKeepTheOverlap | backend/internal/auth/jwt.go:250-281 | In every run from the start whose rotations are more than the overlap apart, the secret each one replaces is accepted at every moment of the overlap after it |
| SecretRotation.CloseRotationsCutTheOverlap | backend/internal/auth/jwt.go:250-281 | From the start, for any two rotations closer than the overlap, a run in which the first one's timer ends the second one's overlap early |
| SecretRotation.PreviousLastsToEarliestTimer | backend/internal/auth/jwt.go:277-280 | Between rotations the previous secret stands up to the earliest timer and is gone after it |
| SecretRotation.NeverEmptyIff | backend/internal/auth/jwt.go:229-267 | The current secret is never empty over all runs exactly when the file was not blank at start |
| SecretRotation.TrimExact | backend/internal/auth/jwt.go:299-308 | Trimming removes all trailing blanks and nothing else, and is the only result that does |
| SecretRotation.TrimSecretBytes | backend/internal/auth/jwt.go:299-308 | The loop computes that prefix |
| SecretRotation.SecretWatch.constructor | backend/internal/auth/jwt.go:215-237 | The file's secret is current, no previous one, five minutes of overlap by default |
| SecretRotation.SecretWatch.OnFileEvent | backend/internal/auth/jwt.go:257-281 | A readable, non-empty, changed secret rotates and starts a timer; anything else changes nothing |
| SecretRotation.SecretWatch.OnTimer | backend/internal/auth/jwt.go:277-280 | Whatever is the previous secret is cleared |
| KeyCache.ResolverHonoursPin | backend/internal/jobs/releases_key_refresh_job.go:118-125 | Over restarts with changed pins, failing reads, writes and fetches, the resolver returns nothing or a key that matches the current pin |
| KeyCache.ResolvesRefreshed | backend/internal/jobs/releases_key_refresh_job.go:235-305 | After a stored refresh the resolver returns the fetched key for the tool in any letter case |
| KeyCache.ResolvesPrimed | backend/internal/jobs/releases_key_refresh_job.go:192-221 | Priming makes it return the row's key exactly when the row can be read and carries the pin |
| KeyCache.ResolvesUnchanged | backend/internal/jobs/releases_key_refresh_job.go:235-294 | A failed fetch or write leaves what it returns |
| KeyCache.RestartServesRow | backend/internal/jobs/releases_key_refresh_job.go:151-154 | After a restart, priming serves the last stored key before anything is fetched |
| KeyCache.FetchIff | backend/internal/mirror/key_fetcher.go:138-195 | A key is fetched exactly when the trimmed body parses, is usable and carries the fingerprint of a pin of forty hexadecimal digits |
| KeyCache.CacheInStepIff | backend/internal/jobs/releases_key_refresh_job.go:235-305 | In every run each cached key equals its row after every step, if and only if no write of a different key was stored without acknowledgement |
| KeyCache.RefreshLeavesRowCurrent | backend/internal/jobs/releases_key_refresh_job.go:267-298 | After a fetch and an unfailing write the row and the cache hold the fetched key, also when the write is skipped |
| KeyCache.LostAckLeavesRowBehind | backend/internal/jobs/releases_key_refresh_job.go:267-294 | After a lost acknowledgement of a different key the row stays behind the cache over any refreshes, while upstream serves the cached key or nothing |
| KeyCache.NeverEvicted | backend/internal/jobs/releases_key_refresh_job.go:192-305 | Within one process a cached key is never evicted |
| KeyCache.PinnedStep | backend/internal/jobs/releases_key_refresh_job.go:192-305 | Every step keeps all cached keys matching their pins and all rows' fingerprints true |
| KeyCache.ReleasesKeyRefreshJob.constructor | backend/internal/jobs/releases_key_refresh_job.go:78-113 | An empty cache over the database as it is |
| KeyCache.ReleasesKeyRefreshJob.PrimeCacheFromDB | backend/internal/jobs/releases_key_refresh_job.go:192-221 | The rows that can be read and match their pin are cached |
| KeyCache.ReleasesKeyRefreshJob.RefreshTool | backend/internal/jobs/releases_key_refresh_job.go:235-305 | The row and the cache after one fetch, for every outcome of fetch and write |
| KeyCache.ReleasesKeyRefreshJob.RunCycle | backend/internal/jobs/releases_key_refresh_job.go:225-230 | Every endpoint refreshed in order |
| KeyCache.ReleasesKeyRefreshJob.ResolveReleasesKey | backend/internal/jobs/releases_key_refresh_job.go:118-125 | The cached key of the lower-cased tool, or the empty string |
| Egress.ValidateAgreesWithDial | backend/internal/httpsafe/httpsafe.go:178-275 | For every allow-list, http or https URL and resolver answer, validation passes exactly when the dial's checks do, or a non-exempt name has no address |
| Egress.DialDecides | backend/internal/httpsafe/httpsafe.go:233-264 | For every allow-list: a literal goes out exactly when it is listed or public; a name goes to the system resolver exactly when an entry names it; any other goes to its answers exactly when there are some and each is listed or public |
| Egress.ValidateDecides | backend/internal/httpsafe/httpsafe.go:178-211 | What the check at save time accepts, in the same terms, besides an http or https scheme and a host |
| Egress.HostExemptIff | backend/internal/httpsafe/httpsafe.go:100-123 | A host is exempt exactly when an entry names it or it is an address that an entry covers |
| Egress.RangeCovers | backend/internal/httpsafe/httpsafe.go:66-69 | A range covers exactly the addresses of its family that begin with its leading bits |
| Egress.NarrowExact | backend/internal/httpsafe/httpsafe.go:139-142 | An IPv4-mapped address counts as the IPv4 address it maps, and every other as itself |
| Egress.RangeNames | backend/internal/httpsafe/httpsafe.go:143-166 | Which range the refusal names, by first and last address |
| Egress.DialledAddressesAreSafe | backend/internal/httpsafe/httpsafe.go:233-275 | Unless the name is exempt, every address dialled is allow-listed or outside all non-public ranges |
| Egress.DeniedIffNonPublic | backend/internal/httpsafe/httpsafe.go:139-168 | The byte tests deny exactly the ranges as the standards write them, an IPv4-mapped address counting as IPv4 |
| Egress.MixedAnswersRefused | backend/internal/httpsafe/httpsafe.go:228-264 | One private answer that the list does not cover refuses a name that the list does not hold, in both checks |
| Egress.NoLiteralAmongHosts | backend/internal/httpsafe/httpsafe.go:59-85 | No allow-listed host name is an IP literal, in any letter case |
| Egress.GuardRefusedIff | backend/internal/httpsafe/httpsafe.go:59-85 | A list is refused exactly when an entry that is neither empty, range nor address holds a slash or a space |
| Egress.GuardHoldsList | backend/internal/httpsafe/httpsafe.go:59-85 | The guard holds exactly the listed names and ranges |
| Egress.SingleAddressCovers | backend/internal/httpsafe/httpsafe.go:70-77 | An allow-listed address covers itself in either form and no other |
| Egress.NewGuard | backend/internal/httpsafe/httpsafe.go:59-85 | The guard of the whole list, or a refusal |
| Egress.DialContext | backend/internal/httpsafe/httpsafe.go:233-275 | Refused exactly when a check fails; otherwise connected to the first checked address that answers, or to none if none does |
| Egress.FirstAnswering | backend/internal/httpsafe/httpsafe.go:266-274 | The attempts stop at the first address that answers |
| Egress.Request.CheckRedirect | backend/internal/httpsafe/httpsafe.go:310-327 | Followed exactly below ten hops, to a valid URL, and same-origin or without body; credentials stay only for the same host and never from https to http, a body likewise; no other header changes |
| Egress.SafeIff | backend/internal/httpsafe/httpsafe.go:287-295 | A step to another host is never safe; to the same host it is, unless it leaves https for http |
| Egress.DowngradeKeepsIff | backend/internal/httpsafe/httpsafe.go:310-327 | In a chain whose hops are each compared with the first request, a step from https to http keeps credentials if and only if the chain began at that host over http |
| Egress.HopByHopIff | backend/internal/httpsafe/httpsafe.go:310-327 | A chain that keeps credentials throughout is safe hop by hop if and only if it never steps from https to http |
| Egress.HopByHopKeeps | backend/internal/httpsafe/httpsafe.go:287-295 | A chain whose every hop is safe after the one before keeps credentials throughout |
| Egress.UpgradeThenDowngrade | backend/internal/httpsafe/httpsafe.go:310-327 | On any host a chain of http, https and http keeps credentials on every hop |
| Egress.SafeRedirectsCompose | backend/internal/httpsafe/httpsafe.go:287-295 | Two safe steps make a safe step, and https is not left on the way |

## Left out

- Gzip and tar decoding, the cap on compressed input, `FindModuleRoot`, permission bits and symbolic links that exist beforehand: an archive is a sequence of decoded entries over a tree of directories and files.
- Windows path rules: paths are slash-separated.
- Upstream identifiers with a slash in them: the storage path and the `os/arch` name would no longer tell versions and platforms apart, so the mirror theorems are about slash-free listings.
- Mirror configurations that share namespace and provider name: the storage path holds no organisation, so the model follows one configuration.
- Provider, tracking, approval and sync-history rows, GPG verification and key backfill, documentation index, h1 hash, stored SHA256SUMS rows, version filters and the aggregation of providers: they do not affect version records, platform records or objects.
- Separate failures of the first platform's description in the key backfill: a version has one fault flag for that lookup, on whichever path it takes.
- Several clock readings within one state-store call, JSON encoding of sessions, nil sessions, the Redis key prefix and connection errors.
- Times to live of zero or less: Redis reads them as no expiry, so the agreement theorem excludes them.
- MultiShipper, the syslog shipper, marshalling failures and request contents of the webhook shipper.
- Partly written lines in the audit file: a write happens whole or not at all.
- Scan contents, module archives and result parsing in `scanOne`; a claim whose reply is lost is a claim followed by a crash.
- ScanClaims.ScansExclusive: the scan cycle is a step relation on values, so update in place and aliasing within one process are not captured.
- Recorder.InvStep: the shared counters are a value changed one atomic access at a time, so memory below the level of Go's atomics is not captured.
- Recorder cuts messages at one hundred characters, the code at one hundred bytes.
- Late timers in the JWT rotation: a timer fires at its deadline. The shared identity library's token manager is taken as a current and a previous secret.
- Expiry gauges, telemetry and embedded keys of the key refresh job; the OpenPGP parser is a parameter.
- URL, CIDR and IP parsing and DNS are parameters of the egress model; case folding is ASCII.
- Route handlers, configuration, cryptography, SQL, command-line tools and startup: plumbing, or code outside this repository.
