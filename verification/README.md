# fwupd, verified in Dafny

A model of the parts of fwupd where state, threads, byte orders or encodings interact, with proofs of
what they promise. `dafny verify dfyconfig.toml` checks the whole project. The proofs are about the
model: nothing of fwupd was executed.

| file | what it models |
|---|---|
| Notify.dfy, NotifyRuns.dfy | the cross-thread notification queue, status publication and the table of immediate requests of `FwupdClient`: a transition system in which any number of calls are in flight, each with its own program counter, and every interleaving is a run |
| NotifyHistory.dfy | what became of every call, told by the steps of a run alone: which status is stored, what is heard and how often, which requests are invalidated |
| NotifyTable.dfy, CallSums.dfy | when the table of immediate requests agrees with what the signals tell the user, whichever threads announce |
| NotifyStack.dfy, NotifyDeadlock.dfy | the same system with a stack for the owner thread, on which handlers re-enter the client: when it deadlocks, and when everything is sure to finish |
| NotifyQueue.dfy | the two functions that hold `idle_mutex`, updating the client's fields; each is a run of steps of that system |
| Handshake.dfy | connecting: proxy, `SetHints`, deferred `SetFeatureFlags`, racing with `set_feature_flags` calls |
| Cooldown.dfy, Download.dfy | the per-URI cooldown list, the retry loop, the URL filter and the fallback downloader |
| Checksum.dfy, Install.dfy | checksum selection, and the install-release chain that depends on it |
| GuidBytes.dfy, Guid.dfy | GUID printing, parsing, validation and hashing, in both byte orders and on both kinds of host |
| BiosSetting.dfy, BiosWrites.dfy | a BIOS setting object: possible values, two raw-value tables, cache and hardware; which writes succeed and what they store |
| BiosCodec.dfy, BiosJson.dfy | its variant and JSON serialisers, and the array codec |
| Allocator.dfy, Pcap.dfy | building USB devices from captured descriptors, with a first-fit endpoint allocator |
| IfdImage.dfy | decoding flash region registers and copying overlapping regions into one image |
| TextPrinter.dfy | the column-aligned multi-line printer |

Objects that the source updates in place are classes, its loops are loops, and each method is proved
against a function of its inputs or of the old state; what the source promises is then proved about
that function. The asynchronous protocols are transition systems. Functions whose source is elsewhere
(curl, SHA digests, Unicode tables, `g_utf8_strdown`, number parsing, clocks) are parameters that may
be any function, so the results hold for all of them.

## Where the code falls short of a stated or natural property

Each of these has a lemma that shows it, and one that says when the property does hold; where that
condition is exact it is an if-and-only-if.

- The thread that owns the main context emits at once, past the queue. So a request can be invalidated
  before the user has been shown it (`ShortcutOvertakesQueue`); the order is kept exactly when the
  request is not still queued (`ShortcutKeepsOrder`).
- The idle callback emits while it holds `idle_mutex`, and a request is invalidated under
  `immediate_requests_mutex`. A handler that calls back into `emit_device_request` or `emit_device_changed`
  can therefore deadlock with a worker (`CallbackDeadlock`) or with its own thread (`InvalidationDeadlock`).
  Everything can still finish exactly when no frame is caught like that (`CanFinishIff`), the moves that
  deadlock are exactly two (`DoomsIff`, `ReentryDoomsIff`), and when handlers keep away from the two
  functions at those places every schedule ends with everything delivered (`DisciplinedFinishes`).
- The immediate-request table follows the order in which its own mutex was taken. A change announced
  between the signal of a request and its insertion leaves the request outstanding
  (`OverlapLeavesStaleRequest`), and the owner thread, whose signals go past the queue, can leave the user
  with a request that is no longer in the table (`OwnerOvertakes`). In every run, table and signals agree
  about a device exactly when both orders end with the same announcement about it (`TableAgreesIff`). They
  do when the announcements about that device do not overlap each other and the owner thread makes none
  while one is still queued (`SerialTableFollowsSignals`).
- A failed `SetHints` loses flags stored before the proxy was there (`FailedHintsLoseFlags`,
  `DrainedDaemon`).
- The cooldown counts until the lock is taken, not until the clock was read (`EarlyReadingMayPass`): by the
  reading, it holds exactly when no prune in between had read more than 1500 ms (`ReadingRefusedIff`). And
  a URI accepted while an older entry for it is listed has no cooldown of its own (`NextAddRefused`).
- The sleeps of the retry loop wrap a 64-bit `gulong` from the 44th retry on (`TotalSleep`).
- A comment at `libfwupd/fwupd-common.c:349-351` asks for the version field of section 4.1.3 of RFC 4122.
  The bytes have it; the mixed-endian text does not show it where section 3 of RFC 4122 puts it
  (`VersionDigit`).
- The fuzzy mapping is idempotent exactly when no value that is both positive and negative is the
  first of its polarity behind a value of the other (`IdempotentIff`).
- A display value is read back as it was written exactly when no other display value was given to its raw
  value since its own last add (`ReadsBackWhatWasWritten`), and adding a display value for the raw value
  that the hardware holds makes the cache stale (`StaysCoherent`).
- JSON turns a bound of 2^63 - 1 into 0 and cannot read back 2^63; larger bounds survive
  (`JsonRoundTrip`). JSON ignores the trusted flag, so it differs from an untrusted variant exactly when
  there is a current value that the variant may not tell (`CodecsAgree`).
- A single interface or endpoint in a capture is reported as a text rather than a list. The characters of the
  interface number are counted as if they were entries (`SingleInterfaceRepeats`), and of each endpoint field
  only the first character is recorded (`SingleEndpointIff`). The endpoint counter is not reset when a
  device without interfaces is replaced (`InheritedCounter`, `NoneInherited`).
- The size of a flash region is its limit minus its base although the limit is inclusive, so the last
  byte of a region is read exactly when another one spans that block and a later one (`LimitByteNotRead`).
- A multi-line value can look like a further entry (`ContinuationLooksLikeEntry`), so a printed listing
  determines arbitrary values exactly when it has at most one key (`DeterminedIff`, `SameKeysPrintAlike`). A
  listing of single lines is told apart from every other under the same keys (`ListingDeterminesValues`).

## Model

| member | source | states |
|---|---|---|
| Notify.QueueStep | libfwupd/fwupd-client.c:227-276 | every step of every call and of the idle callback keeps the queue invariant: helpers queued so far are those emitted from the queue followed by those waiting, and a source is pending exactly when the queue is non-empty |
| Notify.StatusStep | libfwupd/fwupd-client.c:211-296 | every step keeps: the last delivered status is current, or a notification of it is in flight or queued |
| Notify.RequestStep | libfwupd/fwupd-client.c:805-824 | every step keeps the life of a request: signalled once, remembered once, invalidated at most once, the table mutex held by one call |
| Notify.SignalFirstStep | libfwupd/fwupd-client.c:300-338 | every step but an owner's direct invalidation keeps signals ahead of their invalidations, in the queue and to the user |
| Notify.ShortcutOrder | libfwupd/fwupd-client.c:300-310 | an owner's direct invalidation keeps that order if and only if the request is not waiting in the queue |
| NotifyQueue.Client.constructor | libfwupd/fwupd-client.c:227-276 | a new client is the initial state of the transition system |
| NotifyQueue.Client.ContextHelper | libfwupd/fwupd-client.c:259-276 | queueing a helper is the queueing step, with one idle source attached only if none is pending |
| NotifyQueue.Client.IdleCb | libfwupd/fwupd-client.c:225-257 | the callback's loop is the run that emits the queued helpers one after another and then empties the queue |
| NotifyQueue.DrainedEmitsAll | libfwupd/fwupd-client.c:225-257 | such a run emits everything that was waiting, in order, and leaves no source pending |
| NotifyRuns.RunInv | libfwupd/fwupd-client.c:211-338 | all the invariants hold in every state of every interleaving |
| NotifyRuns.OneIdleSource | libfwupd/fwupd-client.c:227-276 | in every reachable state at most one idle source is pending, and outside the lock exactly when the queue is non-empty |
| NotifyRuns.EmittedOnceInOrder | libfwupd/fwupd-client.c:227-276 | in every reachable state what was queued is what the queue emitted followed by what waits: each helper once and in order |
| NotifyRuns.StatusSettles | libfwupd/fwupd-client.c:586-594 | with no status notification queued and no thread between its write and its notification, the last value on status-changed is the status, however many writes collapsed |
| NotifyRuns.QuietIsPublished | libfwupd/fwupd-client.c:211-296 | when all calls returned and no source is left, everything queued was delivered and the status published |
| NotifyHistory.StatusIsLastWrite | libfwupd/fwupd-client.c:586-594 | in every run the status is the value of the set_status call that stored last, or the initial one if none did; once quiet the user heard it last |
| NotifyHistory.SetStatusStores | libfwupd/fwupd-client.c:586-594 | once quiet, a set_status call has stored its value if and only if the status was another one when it was made |
| NotifyHistory.HeardExactlyOnce | libfwupd/fwupd-client.c:211-338 | once quiet, the user has heard everything that was announced exactly once: what workers announced through the queue, and what the owner thread announced at once |
| NotifyRuns.OutstandingMeaning | libfwupd/fwupd-client.c:805-895 | folding inserts and removals gives exactly "the latest immediate request since the device's last change" |
| NotifyRuns.TableIsHistory | libfwupd/fwupd-client.c:805-895 | in every reachable state an entry of the table is the latest immediate request for its device since its last change to a status other than waiting-for-user, and conversely |
| NotifyRuns.InvalidatedAtMostOnce | libfwupd/fwupd-client.c:874-895 | in every run no emission is signalled or invalidated twice, in the queue or to the user |
| NotifyHistory.InvalidatedIff | libfwupd/fwupd-client.c:868-895 | with the table mutex free, a request has been invalidated if and only if its device changed while it was the latest request for it |
| NotifyRuns.WorkersKeepOrder | libfwupd/fwupd-client.c:874-895 | when device changes come from worker threads, a request's signal always precedes its invalidation, in what reached the user and in what the queue will tell next |
| NotifyRuns.QueueKeepsOrder | libfwupd/fwupd-client.c:805-895 | when requests come from worker threads, the queue itself always holds a signal ahead of its invalidation, whoever announces the changes |
| NotifyRuns.ShortcutKeepsOrder | libfwupd/fwupd-client.c:300-310 | from any reachable state the owner's shortcut keeps the order if and only if the request is not still queued |
| NotifyRuns.ShortcutOvertakesQueue | libfwupd/fwupd-client.c:300-310 | a run in which a request is invalidated before it is signalled |
| NotifyTable.CarriedOut | libfwupd/fwupd-client.c:805-895 | in every run, once nothing about a device is in flight, each announcement about it has entered the table section exactly as often as it was signalled, directly or through the queue |
| NotifyTable.TableAgreesIff | libfwupd/fwupd-client.c:805-895 | in every run, once nothing about a device is in flight, the table agrees with what the user was and will be told about it if and only if both orders end with the same announcement about it |
| NotifyTable.SerialTableFollowsSignals | libfwupd/fwupd-client.c:805-895 | it agrees when the announcements about this device do not overlap and the owner thread makes none while one is queued, whatever happens about other devices |
| NotifyTable.OverlapLeavesStaleRequest | libfwupd/fwupd-client.c:805-895 | a run of workers alone, with overlap, after which table and signals disagree about a device |
| NotifyTable.OwnerOvertakes | libfwupd/fwupd-client.c:300-338 | a run without overlap after which they disagree, because the owner thread spoke past the queue |
| NotifyStack.InvStep | libfwupd/fwupd-client.c:225-338 | every move keeps: the stack of the owner thread holds each of its unfinished calls and the running callback once, and all but the topmost wait for handlers |
| NotifyDeadlock.DoomedStays | libfwupd/fwupd-client.c:225-257 | a deadlock is for ever, whatever any thread does |
| NotifyDeadlock.LessWork | libfwupd/fwupd-client.c:211-338 | every move that starts nothing leaves less to do |
| NotifyDeadlock.CanFinishIff | libfwupd/fwupd-client.c:225-895 | from any reachable world everything can finish if and only if no frame of the owner thread needs the table mutex while it is held further down its stack, or by a worker that waits for the callback further down |
| NotifyDeadlock.ReentryDoomsIff | libfwupd/fwupd-client.c:874-895 | a handler that calls one of the two emit functions deadlocks if and only if the table mutex is held against it |
| NotifyDeadlock.DoomsIff | libfwupd/fwupd-client.c:225-895 | in every reachable world a move creates a deadlock if and only if it is such a call, or a worker that takes the mutex from a handler on its way to it |
| NotifyDeadlock.SafeStartIff | libfwupd/fwupd-client.c:805-895 | a start keeps every handler clear of deadlock if and only if it is not a call of the two functions from above the callback or above the holder of the mutex |
| NotifyDeadlock.DisciplinedFinishes | libfwupd/fwupd-client.c:211-338 | without such calls every schedule of the remaining work is bounded, and ends only when all calls have returned, everything queued is delivered in order and the status is published |
| NotifyDeadlock.InvalidationDeadlock | libfwupd/fwupd-client.c:805-895 | from any reachable world with an outstanding request and a free table mutex, a run leads to a deadlock in which the owner thread waits, in any chosen call of the two emit functions, for the table mutex that a call further down its own stack holds, and nothing is left for it to do |
| NotifyDeadlock.CallbackDeadlock | libfwupd/fwupd-client.c:225-895 | from any reachable world with an outstanding request and both mutexes free, a run leads to a deadlock in a circle: the owner thread waits for the table mutex of a worker, the worker for `idle_mutex`, and the callback that holds it for the handler the owner thread is in |
| NotifyDeadlock.DeadlockReachable | libfwupd/fwupd-client.c:225-895 | both deadlocks are reached from the beginning |
| NotifyDeadlock.Projected | libfwupd/fwupd-client.c:211-338 | every run with a stack is a run of the transition system, so all that those keep holds here too |
| Handshake.StepInv | libfwupd/fwupd-client.c:1236-1406 | every step keeps: once the channel drains the daemon will hold the stored flags, if they were ever sent |
| Handshake.RunInv | libfwupd/fwupd-client.c:1236-1406 | this holds in every state of every run |
| Handshake.FlagsReachDaemon | libfwupd/fwupd-client.c:1236-1261 | for any number and timing of set_feature_flags calls, after an answered SetHints and a drained channel the daemon holds the flags of the last call |
| Handshake.DrainedDaemon | libfwupd/fwupd-client.c:1236-1261 | with SetHints allowed to fail: the drained daemon holds the flags of the last call if SetHints was answered or some call came after the proxy, and otherwise none |
| Handshake.HintsSentOnce | libfwupd/fwupd-client.c:1289-1406 | however many connects race, SetHints is sent exactly once when one of them gets the proxy, and nothing is sent before |
| Handshake.AnswerableIff | libfwupd/fwupd-client.c:1236-1406 | SetHints can be answered if and only if it was sent, the daemon has taken it and there was no reply |
| Handshake.ConnectableIff | libfwupd/fwupd-client.c:1289-1406 | a connect can be answered if and only if more connects found no proxy than were answered |
| Handshake.FailedHintsLoseFlags | libfwupd/fwupd-client.c:1236-1261 | a run in which a failed SetHints leaves the daemon without the stored flags |
| Cooldown.DownloadItems.RemovePointer | libfwupd/fwupd-client.c:6791-6794 | removing a pointer drops exactly that item and keeps the order of the others |
| Cooldown.DownloadItems.Prune | libfwupd/fwupd-client.c:6774-6795 | collecting and then removing pointers leaves exactly the entries of at most 1500 ms of age, in order |
| Cooldown.DownloadItems.FindByUri | libfwupd/fwupd-client.c:6797-6807 | the search returns the oldest entry for the URI, or null if there is none |
| Cooldown.DownloadItems.Add | libfwupd/fwupd-client.c:6809-6848 | an add is refused if and only if the oldest entry for the URI is younger than 1500 ms, and otherwise appends one entry |
| Cooldown.ByTheClock | libfwupd/fwupd-client.c:6769-6848 | in microseconds: a URI is refused for less than 1500000, and an entry is dropped from 1501000 on |
| Cooldown.WithoutIsKept | libfwupd/fwupd-client.c:6774-6795 | removing the collected pointers is the order-preserving filter by age |
| Cooldown.EntrySurvives | libfwupd/fwupd-client.c:6769-6848 | for 1500 ms no add or prune removes or hides the entry of a URI, even with a clock read before the lock |
| Cooldown.CooldownHolds | libfwupd/fwupd-client.c:6769-6848 | over any interleaving of adds and prunes, a URI accepted without an entry is refused until 1500 whole milliseconds have passed |
| Cooldown.EarlyReadingMayPass | libfwupd/fwupd-client.c:6769-6848 | a run in which the cooldown ends early when measured by a clock read before the lock |
| Cooldown.ReadingRefusedIff | libfwupd/fwupd-client.c:6769-6848 | by the clock the caller read, an add within 1500 ms of the only other add of its URI is refused if and only if no prune in between had read more than 1500 ms, in any order of readings and locks |
| Cooldown.NextAddRefused | libfwupd/fwupd-client.c:6809-6848 | an accepted URI has a cooldown of its own if and only if no older entry for it was listed |
| Download.RetryLoop | libfwupd/fwupd-client.c:6872-6889 | the loop stops at the first success or fatal error or after the last retry, returns that attempt's outcome, and sleeps once per retry |
| Download.StopsOnce | libfwupd/fwupd-client.c:6728-6733 | that place is unique |
| Download.SleepBound | libfwupd/fwupd-client.c:6872-6889 | the i-th sleep is 2500 * 2^i ms if and only if i is at most 42, and never longer |
| Download.TotalSleep | libfwupd/fwupd-client.c:6872-6889 | n retries sleep 2500 * (2^n - 1) ms in total if and only if n is at most 43 |
| Download.HttpRetry | libfwupd/fwupd-client.c:6857-6889 | an unreachable network or a cooldown ends it with that error and no attempt; otherwise the URI is registered exactly once and the loop runs |
| Download.FilteredMember | libfwupd/fwupd-client.c:4279-4319 | the filter keeps exactly the allowed locations, and all of them without ONLY_P2P |
| Download.AllowedIff | libfwupd/fwupd-client.c:4286-4319 | with ONLY_P2P a URL may be tried if and only if it has one of the two IPFS schemes or curl finds one of four names of this host in it |
| Download.FilterLocations | libfwupd/fwupd-client.c:4424-4449 | succeeds if and only if some location is allowed, then with the non-empty order-preserving filter |
| Download.TryUrl | libfwupd/fwupd-client.c:6908-6922 | one URL is fetched by HTTP with retries, by IPFS, or not at all, and enters the cooldown list exactly when an HTTP attempt is made |
| Download.FetchMeaning | libfwupd/fwupd-client.c:6850-6926 | trying a URL comes to the proxy error; for HTTP to the unreachable network, the cooldown or the first attempt that does not time out; otherwise to IPFS or an error |
| Download.ProxyEnds | libfwupd/fwupd-client.c:6900-6908 | a proxy that cannot be set ends the whole download with its error |
| Download.DownloadBytesThread | libfwupd/fwupd-client.c:6890-6932 | the GTask is completed exactly once, the attempted URLs are a prefix of the list, the last attempt settles the outcome, and beside what other threads do the cooldown list grows by exactly the URLs that were attempted by HTTP |
| Download.DecidedOnce | libfwupd/fwupd-client.c:6890-6932 | the URLs and the network determine the outcome |
| Download.FirstSuccessWins | libfwupd/fwupd-client.c:6890-6932 | a blob is that of the first URL that delivers one, and a null blob is returned if and only if there is no URL |
| Download.RepeatedUrlMisses | libfwupd/fwupd-client.c:6857-6932 | a URL named twice is not downloaded twice within its cooldown, whatever other threads add or prune in that time: the second try misses and registers nothing |
| Download.DownloadBytes2 | libfwupd/fwupd-client.c:6955-6994 | with the filter in front the GTask completes exactly once with a blob or an error, never null, and only allowed URLs are attempted |
| Checksum.BestMeaning | libfwupd/fwupd-common.c:132-150 | there is no best checksum if and only if all have the length of an MD5; otherwise it is the first element of minimum rank |
| Checksum.BestAt | libfwupd/fwupd-common.c:132-150 | and any first element of minimum rank is it |
| Checksum.GuessIsBySize | libfwupd/fwupd-common.c:37-64 | a checksum is taken for the kind whose digest has its size, and for SHA-1 if there is none |
| Checksum.BestByLength | libfwupd/fwupd-common.c:132-150 | the best is the first of 512 bits, else of 256, else of 384, else the first that is not of the length of an MD5 |
| Checksum.GetBest | libfwupd/fwupd-common.c:132-150 | the nested loops compute it |
| Checksum.GetByKind | libfwupd/fwupd-common.c:110-120 | the first checksum of the kind, or none if and only if there is none |
| Install.PassimTriedFirst | libfwupd/fwupd-client.c:4375-4388 | a release with a SHA-256 checksum from a remote that allows it is asked of the local Passim cache before any location, by its first such checksum, unless ONLY_P2P is set and curl sees no local host in that URL; no other release is |
| Install.BuildUris | libfwupd/fwupd-client.c:4375-4405 | the Passim URI and behind it the URI of each peer-to-peer or HTTP location, in order, or the first error |
| Install.UrisMeaning | libfwupd/fwupd-client.c:4390-4407 | the locations come to the error of the first that the remote has no URI for, and otherwise to exactly the URIs they stand for |
| Install.UrisConcat | libfwupd/fwupd-client.c:4390-4407 | the URIs are in the order of their locations |
| Install.LocalFileIff | libfwupd/fwupd-client.c:4350-4360 | which file on this machine a location names |
| Install.RemoteOutcome | libfwupd/fwupd-client.c:4322-4423 | with the remote at hand: a local file is installed if and only if the first location names one; otherwise there is a download if and only if no location fails and there is something to try; otherwise the first failure or InvalidFile |
| Install.BlobInstalledIff | libfwupd/fwupd-client.c:4253-4276 | with a blob at hand: it is installed if and only if it has the digest that the best checksum demands |
| Install.VerifiedBySize | libfwupd/fwupd-client.c:4253-4258 | with digests of the right sizes, that is the digest whose size the best checksum has |
| Install.StepInv | libfwupd/fwupd-client.c:4208-4277 | every reply keeps the chain's invariant and brings its end closer |
| Install.RunInv | libfwupd/fwupd-client.c:4208-4517 | the invariant holds in every run |
| Install.OnlyVerifiedBlobs | libfwupd/fwupd-client.c:4238-4277 | in every run an installed blob has the digest, of the kind guessed from the best checksum, that equals this checksum, and came from an allowed URL |
| Install.BlobOutcome | libfwupd/fwupd-client.c:4223-4277 | in every run a downloaded blob is installed if and only if its digest is right, and the GTask then ends with the answer; otherwise with InvalidFile and nothing installed |
| Install.FileOutcome | libfwupd/fwupd-client.c:4208-4373 | in every run a first location that is a local file is installed from there, and the GTask ends with the answer |
| Install.ErrorOutcome | libfwupd/fwupd-client.c:4238-4341 | in every run the error of the remote or of the download is the one the GTask ends with, and nothing is installed |
| Install.FirstReply | libfwupd/fwupd-client.c:4499-4517 | a release with a remote is looked up there first, and one without is downloaded from its locations |
| Install.NeverWithoutChecksum | libfwupd/fwupd-client.c:4238-4277 | in every run no blob is installed when the checksums are absent or all MD5-length |
| Install.FilesAreLocal | libfwupd/fwupd-client.c:4350-4373 | in every run a file is installed without a download only for a local or directory remote, and it is the one the first location names |
| Install.ResolvedExactlyOnce | libfwupd/fwupd-client.c:4208-4517 | in every run the GTask is resolved at most once, exactly when nothing more can happen, within three replies, and success means one install |
| GuidBytes.OrderTwice | libfwupd/fwupd-common.c:155-222 | the byte permutation of the mixed-endian form is its own inverse |
| Guid.PrintMeaning | libfwupd/fwupd-common.c:155-222 | on either host the text is two digits a byte in the order of the encoding, with dashes |
| Guid.GuidFromString | libfwupd/fwupd-common.c:225-289 | accepts exactly the texts of 8-4-4-4-12 hexadecimal digits, and returns their bytes in the order of the encoding, on either host |
| Guid.SplitWellFormed | libfwupd/fwupd-common.c:225-289 | splitting a well-formed text at dashes gives its five groups |
| Guid.WellFormedSplit | libfwupd/fwupd-common.c:225-289 | five pieces of the right lengths are well-formed if and only if they hold only digits |
| Guid.ParsePrint | libfwupd/fwupd-common.c:155-289 | parsing the printed text with the same flags returns the bytes |
| Guid.PrintParse | libfwupd/fwupd-common.c:155-289 | printing what was parsed gives the text in lower case |
| Guid.MixedIsPermuted | libfwupd/fwupd-common.c:225-289 | mixed-endian parsing accepts the same texts and permutes the bytes of the plain parse |
| Guid.GuidIsValid | libfwupd/fwupd-common.c:393-421 | the scanning loop accepts exactly the well-formed texts other than the zero GUID |
| Guid.ValidIffParses | libfwupd/fwupd-common.c:225-421 | valid if and only if it parses, under any flags, to bytes that are not all zero |
| Guid.GuidHashData | libfwupd/fwupd-common.c:307-353 | without data there is none; otherwise a valid GUID that decodes to the digest with version 5 and variant 10 of sections 4.1.3 and 4.1.1 of RFC 4122 |
| Guid.NamespaceTexts | libfwupd/fwupd-common.c:312-337 | the namespaces print as the two texts the library documents, the default one that of appendix C of RFC 4122 |
| Guid.VersionDigit | libfwupd/fwupd-common.c:349-352 | the text shows a 5 at the version digit if and only if the encoding is plain or byte 7 happens to start with 5 |
| BiosSetting.FwupdBiosSetting.HasPossibleValue | libfwupd/fwupd-bios-setting.c:581-597 | true if and only if the value is listed or nothing is |
| BiosSetting.FwupdBiosSetting.AddPossibleValue | libfwupd/fwupd-bios-setting.c:645-654 | appends the value unless the list is non-empty and has it |
| BiosSetting.FwupdBiosSetting.AddPossibleValueFull | libfwupd/fwupd-bios-setting.c:611-634 | updates both raw tables and the list, nothing else |
| BiosSetting.FwupdBiosSetting.MapPossibleValue | libfwupd/fwupd-bios-setting.c:498-568 | display value, then raw value, or without tables the first listed match |
| BiosSetting.FwupdBiosSetting.WriteValue | libfwupd/fwupd-bios-setting.c:889-956 | the error of the first check that fails and then no change, or the mapped value in the hardware and its display value in the cache |
| BiosSetting.FwupdBiosSetting.SetupValue | libfwupd/fwupd-bios-setting.c:975-1016 | the cache becomes the display value of the hardware, or an error and then no change |
| BiosSetting.TablesRun | libfwupd/fwupd-bios-setting.c:611-654 | after any run of operations the list has no duplicates, both tables exist together, and each maps into the other and into the list |
| BiosSetting.WriteCoherent | libfwupd/fwupd-bios-setting.c:889-956 | a successful write of an enumeration with raw values leaves the cache equal to the display value of the hardware, a listed value |
| BiosWrites.WriteSucceedsIff | libfwupd/fwupd-bios-setting.c:889-956 | over working hardware a write succeeds if and only if the setting is not read-only, the value is not the cached one, and by kind it is a number within the bounds, a length within them, a key of either raw table, or matched by a listed value |
| BiosWrites.WriteRefused | libfwupd/fwupd-bios-setting.c:889-956 | otherwise the first reason that applies is the error |
| BiosWrites.WriteStores | libfwupd/fwupd-bios-setting.c:920-955 | what the hardware and the cache hold after a write, and that nothing else changes |
| BiosWrites.HardwareIsLastWrite | libfwupd/fwupd-bios-setting.c:889-956 | after any run the hardware holds what the last successful write stored, or what it held before |
| BiosWrites.ReadOnlyKept | libfwupd/fwupd-bios-setting.c:911-919 | whatever is done to a read-only setting, the hardware keeps what it held |
| BiosWrites.KnownIff | libfwupd/fwupd-bios-setting.c:611-660 | after any run the list and the two tables know exactly the values that were added |
| BiosWrites.ListedInOrder | libfwupd/fwupd-bios-setting.c:645-660 | values are listed in the order in which they were first added |
| BiosSetting.OnlyCheckedValues | libfwupd/fwupd-bios-setting.c:803-869 | a successful write gives the hardware only a number or a length within the bounds, a listed value, or the raw value of one |
| BiosSetting.SuccessIsCoherent | libfwupd/fwupd-bios-setting.c:889-1016 | after any run, a write or setup that succeeds leaves cache and hardware coherent, and a setup right after it changes nothing |
| BiosSetting.FailuresLeaveNoTrace | libfwupd/fwupd-bios-setting.c:889-1016 | any run comes to the same as its successful operations alone, each of which succeeds again |
| BiosSetting.StaysCoherent | libfwupd/fwupd-bios-setting.c:611-634 | an operation on a coherent setting keeps it so if and only if it does not give the raw value in the hardware another display value |
| BiosSetting.ReadsBackWhatWasWritten | libfwupd/fwupd-bios-setting.c:611-952 | after any run, a display value that is written is cached as written if and only if no add gave its raw value another display value since its own last add |
| BiosSetting.FirstMatchMeaning | libfwupd/fwupd-bios-setting.c:543-568 | the fuzzy result is the first listed value equal ignoring case or of the same polarity, or none if and only if none matches |
| BiosWrites.PolarityIff | libfwupd/fwupd-bios-setting.c:453-481 | a key is positive if and only if it is true, 1 or on or has "enable" in it, and negative if and only if it is false, 0 or off or has "disable" in it |
| BiosSetting.MapTwice | libfwupd/fwupd-bios-setting.c:453-568 | without an ambiguous first value, mapping a mapped value gives it again |
| BiosSetting.PositiveTrapBreaks | libfwupd/fwupd-bios-setting.c:453-568 | an ambiguous first positive value behind a negative one breaks idempotence |
| BiosSetting.NegativeTrapBreaks | libfwupd/fwupd-bios-setting.c:453-568 | and likewise with the polarities exchanged |
| BiosSetting.IdempotentIff | libfwupd/fwupd-bios-setting.c:453-568 | mapping is idempotent for every key if and only if there is neither trap |
| BiosSetting.FuzzyWriteThenSetup | libfwupd/fwupd-bios-setting.c:889-1016 | without raw tables the cached spelling maps to the hardware value after a write, and after a following setup too unless there is a trap |
| BiosCodec.AddVariant | libfwupd/fwupd-bios-setting.c:1030-1128 | the dictionary has an entry exactly for each key that is set and relevant to the kind, in order, the current value only if trusted or named pending_reboot |
| BiosCodec.EntryOfText | libfwupd/fwupd-bios-setting.c:1030-1075 | for each text field, which entry it has and when |
| BiosCodec.EntryOfNumber | libfwupd/fwupd-bios-setting.c:1030-1128 | for each other field, which entry it has and for which kinds |
| BiosCodec.ReadsByType | libfwupd/fwupd-variant.c:101-169 | a number reads the same signed or unsigned; a value of another type reads as zero, no text, false or no values |
| BiosCodec.Setting.FromKeyValue | libfwupd/fwupd-bios-setting.c:1130-1195 | the field of the key gets what the value means for it, with the default for a wrong type, and every other field is unchanged |
| BiosCodec.Setting.AddPossibleValues | libfwupd/fwupd-bios-setting.c:1173-1178 | the listed values are added one by one without duplicates |
| BiosCodec.Setting.FromVariantIter | libfwupd/fwupd-bios-setting.c:1464-1474 | the loop applies the entries in order |
| BiosCodec.DecodedField | libfwupd/fwupd-bios-setting.c:1130-1195 | with distinct keys each field depends on its own entry only |
| BiosCodec.ReorderedDistinct | libfwupd/fwupd-bios-setting.c:1464-1474 | any order of the entries has the same entries and distinct keys |
| BiosCodec.VariantRoundTrip | libfwupd/fwupd-bios-setting.c:1018-1195 | decoding the dictionary into a new object, in any order of entries, gives exactly the kind-relevant projection; untrusted differs only by the current value |
| BiosCodec.ArrayFromVariant | libfwupd/fwupd-codec.c:332-353 | decodes the elements in order or returns the first error |
| BiosCodec.ArrayToVariant | libfwupd/fwupd-codec.c:398-411 | one dictionary for each object, in order |
| BiosCodec.ArrayRoundTrip | libfwupd/fwupd-codec.c:332-411 | the round trip lifts to arrays, element by element, each dictionary in any order |
| BiosJson.AddJson | libfwupd/fwupd-bios-setting.c:1284-1354 | the JSON object has a member exactly for each key that is set and relevant |
| BiosJson.MemberOfText | libfwupd/fwupd-bios-setting.c:1284-1330 | for each text field, which member it has and when |
| BiosJson.MemberOfNumber | libfwupd/fwupd-bios-setting.c:1284-1354 | for each other field, which member it has and for which kinds |
| BiosJson.UnreadableIff | libfwupd/fwupd-bios-setting.c:1197-1282 | decoding fails if and only if a number is given as something else or as one of the two extreme integers, or the flag as something else |
| BiosJson.MissingMember | libfwupd/fwupd-json-object.c:369-397 | a member that is missing or null reads as zero, false, no text or no values |
| BiosJson.FromJson | libfwupd/fwupd-bios-setting.c:1197-1282 | fails if and only if a number or boolean cannot be read, and otherwise sets every field from its member |
| BiosJson.IntegerRoundTrip | libfwupd/fwupd-json-object.c:764-772 | an unsigned bound is dropped at 2^63 - 1, becomes the unreadable minimum at 2^63, and is otherwise restored exactly |
| BiosJson.JsonReadable | rust/fwupd/src/json/object.rs:279-290 | reading fails if and only if a relevant bound is 2^63 |
| BiosJson.JsonDecoded | libfwupd/fwupd-bios-setting.c:1197-1354 | JSON restores what a trusted variant does, with bounds of 2^63 - 1 turned into 0 |
| BiosJson.JsonRoundTrip | libfwupd/fwupd-bios-setting.c:1197-1354 | JSON restores exactly that if and only if no relevant bound is 2^63 - 1 or 2^63 |
| BiosJson.CodecsAgree | libfwupd/fwupd-bios-setting.c:1018-1354 | JSON and a variant, trusted or not, restore the same object if and only if no bound is 2^63 - 1 and the variant may tell the current value or there is none |
| Allocator.AllocIsShare | contrib/pcap2emulation.py:580-598 | for every sequence of descriptors first fit gives each interface exactly its slice of the endpoints that found a place |
| Allocator.KeepsArrivalOrder | contrib/pcap2emulation.py:580-598 | the endpoints of all interfaces together are those that found a place, in order of arrival |
| Allocator.FullThenEmpty | contrib/pcap2emulation.py:580-598 | the interfaces before the first with room are full and those behind it empty |
| Allocator.DroppedWhenFull | contrib/pcap2emulation.py:580-598 | an endpoint is dropped if and only if every interface so far is full, and then nothing changes |
| Allocator.UnchangedByArrivals | contrib/pcap2emulation.py:580-598 | endpoints leave the interfaces unchanged if and only if there are none or every interface is full |
| Allocator.NothingLost | contrib/pcap2emulation.py:580-598 | no endpoint is lost if and only if at no moment more had arrived than were asked for |
| Pcap.Pcap2Emulation.constructor | contrib/pcap2emulation.py:55-65 | a new converter has an empty history |
| Pcap.Pcap2Emulation.SavePhase | contrib/pcap2emulation.py:77-80 | appends the device to the phases and resets both counters |
| Pcap.Pcap2Emulation.GetInterfaceDescriptor | contrib/pcap2emulation.py:296-334 | nothing when the column has no entry left; otherwise the entry's fields without a zero number, or the first missing key or index |
| Pcap.InterfaceFieldsMeaning | contrib/pcap2emulation.py:296-335 | each field of an interface is read from the column of that name; a zero interface number is left out |
| Pcap.Pcap2Emulation.GetEndpointDescriptor | contrib/pcap2emulation.py:336-352 | the non-zero fields of an entry, or the first missing key or index |
| Pcap.EndpointFieldsMeaning | contrib/pcap2emulation.py:337-354 | each field of an endpoint is read from the column of that name, zeros left out |
| Pcap.Pcap2Emulation.AddEndpoint | contrib/pcap2emulation.py:589-597 | the loop gives the endpoint to the first interface with room, or to none |
| Pcap.Pcap2Emulation.DeviceDescriptor | contrib/pcap2emulation.py:420-478 | a wanted device saves the previous one if it has interfaces, and starts anew |
| Pcap.Pcap2Emulation.InterfaceDescriptor | contrib/pcap2emulation.py:546-578 | extends the history as decoded, or stops with the error; keeps interface_index equal to the number of interfaces |
| Pcap.Pcap2Emulation.EndpointDescriptor | contrib/pcap2emulation.py:580-598 | extends the history as decoded, or stops with the error; counts the endpoint even when it is dropped |
| Pcap.Pcap2Emulation.ControlFrame | contrib/pcap2emulation.py:406-606 | the descriptors of a frame are applied in order and the state stays what the history says |
| Pcap.DecodeMeaning | contrib/pcap2emulation.py:407-610 | what each number of a descriptor type leads to, and which length an interface gets |
| Pcap.StopsUnlessByte | contrib/pcap2emulation.py:547-580 | an interface stops the conversion if and only if its string index is not a byte |
| Pcap.Pcap2Emulation.ParseFile | contrib/pcap2emulation.py:374-685 | the phases are the allocated devices of the whole run, the last one even without interfaces |
| Pcap.Progress | contrib/pcap2emulation.py:546-598 | within a frame both counters step with their descriptors up to the length of their columns |
| Pcap.UnchangedIff | contrib/pcap2emulation.py:546-598 | a frame leaves the interfaces unchanged if and only if it has no interface left to add, and no endpoint left or no place for one |
| Pcap.ReadAgain | contrib/pcap2emulation.py:308-311 | processing the same frame again, with an entry for each descriptor, succeeds and changes neither interfaces nor counters, whatever came before |
| Pcap.SingleInterfaceRepeats | contrib/pcap2emulation.py:308-322 | reading the frame of a single interface, reported in texts, again succeeds, and changes nothing if and only if the number has one character; otherwise it adds the very same interface once more |
| Pcap.SingleEndpointIff | contrib/pcap2emulation.py:336-352 | what a new device records of a single endpoint, reported in texts, is right if and only if each text reads like its first character |
| Pcap.TakenInOrder | contrib/pcap2emulation.py:296-352 | what a new device takes from a frame are the entries of its columns, in order, endpoints from the inherited counter on |
| Pcap.TakesAllIff | contrib/pcap2emulation.py:580-598 | a new device takes all endpoints of a frame if and only if none is inherited or the entries suffice even so |
| Pcap.NoneInherited | contrib/pcap2emulation.py:438-478 | in every run of frames whose endpoints follow an interface of the same device, and whose interface column, if there is one, is not empty, no device inherits a counter |
| Pcap.InheritedCounter | contrib/pcap2emulation.py:438-478 | after a device with endpoints but no interfaces, the next device misses endpoints |
| Pcap.EndpointFirst | contrib/pcap2emulation.py:438-478 | a run that leads to such a device |
| IfdImage.KeptFacts | contrib/dump-mtd-ifd.py:86-98 | exactly the registers whose base block is at most their limit block are kept, each 4 KiB aligned with the register's range |
| IfdImage.ReadRegisters | contrib/dump-mtd-ifd.py:73-82 | reads the little-endian registers, or fails if and only if they do not fit |
| IfdImage.ReadWritten | contrib/dump-mtd-ifd.py:53-59 | a number is read exactly where its four bytes are, least significant first |
| IfdImage.DecodesLayout | contrib/dump-mtd-ifd.py:50-98 | whatever descriptor the bytes hold, made of a region count, a table address and base and limit blocks with any bits around them, decoding gives back its regions |
| IfdImage.OnlyLayouts | contrib/dump-mtd-ifd.py:50-83 | and nothing else is taken for a descriptor |
| IfdImage.WrongSignature | contrib/dump-mtd-ifd.py:58-61 | a wrong signature is reported if and only if the block is long enough and holds it |
| IfdImage.ParseRegions | contrib/dump-mtd-ifd.py:86-98 | the loop computes the kept regions |
| IfdImage.ImageSize | contrib/dump-mtd-ifd.py:100-105 | the least size that holds every region |
| IfdImage.CopyRegions | contrib/dump-mtd-ifd.py:107-120 | in place, a byte is the flash byte if any region delivered its address and 0 otherwise, whatever the overlaps, short reads and failures |
| IfdImage.LoadRegisters | contrib/dump-mtd-ifd.py:67-82 | count and base address are taken from the descriptor map |
| IfdImage.ReadPartitions | contrib/dump-mtd-ifd.py:50-120 | a wrong descriptor is the error it deserves; otherwise the image is as above for the whole chip |
| IfdImage.RegionsFit | contrib/dump-mtd-ifd.py:86-105 | every kept region lies inside the image, for all register values |
| IfdImage.LimitByteNotRead | contrib/dump-mtd-ifd.py:89-98 | the byte at a region's limit is read if and only if some register has its base block at or before that block and its limit block behind it |
| TextPrinter.StrWidth | libfwupd/fwupd-codec.c:445-462 | the sum of the display widths |
| TextPrinter.WidthMeaning | libfwupd/fwupd-codec.c:445-462 | two columns for each wide character and one for each other that has a width |
| TextPrinter.GString.StringAppend | libfwupd/fwupd-codec.c:475-513 | appends the head, padding, lines and newline of the value, and nothing for a null value or an indent of 12 or more |
| TextPrinter.UnindentBody | libfwupd/fwupd-codec.c:498-511 | removing 2 * indent characters behind each newline of the printed lines restores the value |
| TextPrinter.ReadBackRendered | libfwupd/fwupd-codec.c:475-513 | for every indent below 12, key and value, the value can be read back from the text |
| TextPrinter.TextDeterminesValue | libfwupd/fwupd-codec.c:475-513 | equal texts have equal values, null and empty included |
| TextPrinter.ValueColumn | libfwupd/fwupd-codec.c:486-506 | a non-empty value starts in column max(24, 2 * indent + width(key) + 2) |
| TextPrinter.PrintsNothingIff | libfwupd/fwupd-codec.c:476-513 | nothing is printed if and only if there is no value or the indent is 12 or more; an empty value leaves the key alone on its line |
| TextPrinter.ContinuationLooksLikeEntry | libfwupd/fwupd-codec.c:475-513 | for all keys and values, what two appends print one append of a multi-line value prints as well |
| TextPrinter.SameKeysPrintAlike | libfwupd/fwupd-codec.c:475-513 | under any two keys, before any further entries, two different lists of values print alike |
| TextPrinter.DeterminedIff | libfwupd/fwupd-codec.c:475-513 | a list of keys determines arbitrary values from the listing if and only if it has at most one key |
| TextPrinter.ListingDeterminesValues | libfwupd/fwupd-codec.c:475-513 | a listing of single-line values, empty ones included, is told apart from every other listing under the same keys |

## Left out

- D-Bus plumbing, the synchronous wrappers, GObject class setup, reference counting and property access; the direct status write in `set_property` is outside the status protocol.
- The legacy property notification that accompanies a queued invalidation, and percentage notifications.
- Disconnecting in the middle of the handshake, and unsynchronised concurrent `set_feature_flags` calls.
- curl, IPFS, proxies and the network monitor: their outcomes are parameters.
- A handler that waits for another thread by means of its own, outside the client, is not modelled; handlers may call the client and iterate the main context.
- DeterminedIff: keys with a line break in them are not considered; the keys of the source are single words.
- SHA-1 and other digests are uninterpreted, so nothing is said about collisions.
- `g_ascii_string_to_unsigned` is taken to accept exactly strings of hexadecimal digits within the bound.
- `g_utf8_strdown` and the number parser are arbitrary functions; `IdempotentIff` asks only that "on" and "off" are their own lower case.
- Raw tables, hardware values and other private fields of a BIOS setting are not serialised, in the source as in the model; the array form of JSON is not modelled.
- Bit operations on registers and GUID bytes are written as divisions and remainders.
- Registers that lie beyond the descriptor block are an error in the model as in the source; what a device driver returns beyond the chip is a short read.
- The events, strings, ports and creation times that `contrib/pcap2emulation.py` records beside the interfaces, its vendor and product matching, and numerals that its parser rejects.
- Interfaces and saved devices are values: the dictionaries that the converter shares between the current device and the last saved phase are not aliased in the model, and the source does not change them after saving.
- The threads of the client are modelled as interleaved steps of a value state; only the two functions under `idle_mutex` are also given as methods of an object.
- Text is a sequence of characters: UTF-8 validity and byte lengths are not modelled.
