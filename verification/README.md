# A verified model of the control plane

The system is a Kubernetes-compatible control plane in one process: an API
server over a revisioned store, controllers that elect a leader, watch the store
through informers and drain work queues, and a kubelet that talks to the API
server over a small HTTP/1.1 client. This project models the parts of it whose
correctness is not visible from any one function, and proves what they promise.
Where a promise does not hold, the model keeps the code as it is, and the
project proves for which inputs the promise holds.

`dafny verify dfyconfig.toml` checks everything.

## How the files fit together

| files | subject |
|---|---|
| `Options`, `Text`, `Order`, `Json`, `Objects`, `Paths` | results, decimal text, the order of strings, JSON documents, object identity, storage paths |
| `Storage` | the revisioned store: compare-and-swap writes, one logged event per write, as a value and as the object that is updated in place |
| `LeaderElection`, `Time` | the Lease protocol over every interleaving; the RFC 3339 times its leases carry |
| `WorkQueue`, `Worker`, `ControlLoop` | the deduplicating queue, one worker round, and every interleaving of informer, queue and workers |
| `Informer`, `CacheLaws`, `UnheardDeletion`, `Renaming` | the LIST-then-WATCH cache, its agreement with the store, and requests after which they disagree |
| `StrategicMerge`, `MergeLaws`, `PatchRequests`, `CoreLists` | strategic merge patch: the in-place algorithm against its meaning, RFC 7386, idempotence, the choice of codec, and what a patch makes of the core/v1 lists |
| `Canonical`, `CanonicalLaws`, `JsonText` | canonical JSON and the template hash, and that both are what the standards say |
| `Framing`, `FramingLaws`, `HeadLaws` | HTTP/1.1 heads, chunked bodies and the read loop |
| `NodePorts`, `NodePortLaws`, `Healing`, `ServicePorts` | NodePort allocation, the heal loop against the store and other writers, and ports over every run of requests |
| `Pagination` | continue tokens |
| `ApiServer`, `FinalizerLaws`, `RequestLaws` | the create and item handlers, the finalizer-gated delete, and what every request answers and stores |

Code that updates things in place is modelled by methods and classes, each
proved against a function; what the source promises is proved about the
function. `Storage.EmbeddedStorage`, `WorkQueue.SharedQueue`,
`Informer.ObjectStore`, `LeaderElection.LeaderElector` and `ApiServer.Server`
are the classes. Protocols are transition systems whose steps are the source's
atomic sections, and their theorems speak of every run.

## Where the code and its documentation part

- A list page is cut "over a list sorted by storage key", but both stores
  return lists in revision order. `Pagination.ReturnsTheListExactly` says exactly
  which lists come back whole; `Pagination.WalkNeverEnds` is a walk over what the
  store lists after two creates that repeats its first page for ever.
- "A corrupt lease can always be taken over": a time that does not parse counts
  as 0, but one that names a year before 1970 wraps to a huge instant, and one
  in the future counts as it reads. `LeaderElection.TakeableExactly` says which
  leases can be taken over at each moment, `LeaderElection.StuckExactly` which
  never can; `LeaderElection.SecondBefore1970` is `1969-12-31T23:59:59Z` in either
  member, and a day that never was. From the year 10000 on, printed times do
  not parse back and a fresh lease looks expired (`LeaderElection.ExpiredFromYear10000`),
  and they no longer sort (`Time.Year10000SortsFirst`).
- Filling in the namespace from the path "closes the class for every writer":
  deletions are still keyed by the stored body, so a deletion of an object
  whose body names no namespace can leave its cache entry behind.
  `CacheLaws.Converges` says exactly when; `UnheardDeletion.DeletionGoesUnheard`
  is a CREATE, a PATCH with a null namespace and a DELETE that do it. Neither
  a replace nor a patch checks the name, and a patch not even the namespace; a
  put of such a body goes to the key it names (`CacheLaws.MisnamedPut`), so the
  key of its path shows an old version (`Renaming.RenameLeavesBoth`).
- `merge-patch+json` is announced as RFC 7386, but nulls inside an object that
  is new to the target are stored (`MergeLaws.NestedNullIsStored`), and
  `$patch` is obeyed; `MergeLaws.AgreesWithRfc7386` is exact.
- "The whole set is rebuilt on the next acquisition", but the queues are not:
  a key whose worker is aborted mid-reconcile is never handed out again
  (`ControlLoop.LeakIsReachable`, `ControlLoop.LeakedForever`, `ControlLoop.NoLostWakeup`).
- A DELETE "honours `?resourceVersion=`", but not of an already stamped object,
  not when it orphans, and not one that is no number: that deletes
  unconditionally (`FinalizerLaws.StaleDeleteExactly`, `FinalizerLaws.UnparsedRevisionIsNone`).
- Ports are numbered one after another, so an open port can be handed the number
  a later port asks for, and the request is refused; the heal loop runs into the
  same refusal (`NodePortLaws.PassesExactly`, `NodePortLaws.OrderDecides`,
  `NodePortLaws.HealStuck`). A replace and a patch check no ports, and a
  create whose listing failed starts from nothing, which the heal puts right only
  if its own listing succeeds and it passes. `ServicePorts.RunsStayApartExactly`
  says which runs of requests keep the Services apart;
  `ServicePorts.BlindCreateCollides` and `ServicePorts.ReplaceCanCollide` are
  runs that do not.

## Model

| member | source | states |
|---|---|---|
| Storage.EmbeddedStorage.Create | crates/storage/src/embedded.rs:76-101 | creates under the next revision and logs one put, or changes nothing: taken name, invalid key |
| Storage.EmbeddedStorage.Update | crates/storage/src/embedded.rs:126-161 | compare-and-swap on the entry's revision: succeeds exactly if the key exists and the revision, if asked for, is current |
| Storage.EmbeddedStorage.Remove | crates/storage/src/embedded.rs:163-194 | removes under the next revision, logging the entry removed; a missing key is no error |
| Storage.EmbeddedStorage.List | crates/storage/src/embedded.rs:108-124 | every entry of the collection exactly once, in revision order |
| Storage.ApplyKeepsValid | crates/storage/src/embedded.rs:76-194 | every write keeps: one event per revision, the entries are the replayed log, each deletion carries the entry it removed |
| Storage.LiveEntryIsLogged | crates/storage/src/embedded.rs:149-160 | a live entry is the last event of its path, logged at its own revision |
| Storage.EveryLifeIsOnRecord | crates/storage/src/embedded.rs:76-194 | over every run of writes an entry was put at version 1 at its create revision, never deleted since, and its version counts its puts |
| Storage.SameRevisionSameEntry | crates/storage/src/embedded.rs:138-146 | an entry whose revision is unchanged is the entry that was read: what a successful compare-and-swap rests on |
| Objects.ProjectCarriesRevision | crates/controllers/src/client.rs:50-59 | a projected object carries its store revision and, outside `metadata`, what was stored |
| Paths.PathComesApart | crates/controllers/src/informer.rs:119-134 | for every well-formed key, the namespace and the cache key read back off its path; a cluster-scoped path yields `resource/name` |
| Paths.AnyPathComesApart | crates/controllers/src/informer.rs:119-173 | of any path: a namespace exactly if three segments follow the group, and the cache key is the last two |
| Paths.PathsAreDistinct | crates/storage/src/key.rs:43-69 | distinct keys of one resource have distinct paths |
| Paths.SyntheticPathComesBack | crates/controllers/src/informer.rs:286-297 | the path made up for a `ns/name` cache key leads back to it; that of a bare key does not |
| LeaderElection.LeaderElector.TryAcquireOrRenew | crates/controllers/src/leaderelection.rs:152-205 | one undisturbed attempt is the protocol's read and landing step in one; on a lease as electors write it, or none, it never fails and is leader exactly if there is none, it is its own, or it has run out |
| LeaderElection.NewLeaseIs | crates/controllers/src/leaderelection.rs:87-102 | through the printed times, a new lease reads back its holder, both times and no transition, with its type, place and duration |
| LeaderElection.RenewLeaseIs | crates/controllers/src/leaderelection.rs:104-111 | a renewal moves the renewal time and nothing else at all |
| LeaderElection.TakeoverLeaseIs | crates/controllers/src/leaderelection.rs:113-128 | a takeover sets holder and both times, counts one transition, and changes nothing else |
| LeaderElection.LandEffect | crates/controllers/src/leaderelection.rs:152-205 | whatever happened since the read, landing either changes nothing or makes one legitimate lease change on the very lease that was read |
| LeaderElection.UndisturbedAttempt | crates/controllers/src/leaderelection.rs:152-205 | such an attempt writes nothing exactly if the lease is another's and has not run out, or its own and renewed less than half its duration ago |
| LeaderElection.LostRace | crates/controllers/src/leaderelection.rs:161-202 | an attempt that somebody got ahead of is not leader, without an error unless the lease is gone |
| LeaderElection.ReadLeaseIs | crates/controllers/src/client.rs:50-59 | the lease is read in its namespace, at its revision, and otherwise as stored |
| LeaderElection.LeaderStays | crates/controllers/src/leaderelection.rs:152-224 | in every run a published leader stays published while its attempts read and land undisturbed on its own lease |
| LeaderElection.OwnLeaseIsPublished | crates/controllers/src/leaderelection.rs:217-224 | and one such attempt publishes its elector with the time it sampled |
| LeaderElection.FlagIsLastAnswer | crates/controllers/src/leaderelection.rs:217-233 | over every run an elector is published exactly if its last published answer was leader |
| LeaderElection.InvStep | crates/controllers/src/leaderelection.rs:150-234 | every step of any elector or writer keeps the protocol invariant |
| LeaderElection.NoEarlyTakeover | crates/controllers/src/leaderelection.rs:171-203 | in every run, an attempt that returned leader with sampled time `t` rules out any later takeover by another elector decided before `t + D - D/2` |
| LeaderElection.AtMostOneLeader | crates/controllers/src/leaderelection.rs:217-233 | while published leaders are younger than that bound, at most one is published |
| LeaderElection.LeaseHistory | crates/controllers/src/leaderelection.rs:74-128 | over every run `leaseTransitions` counts the holder changes, `acquireTime <= renewTime`, `renewTime` never goes back, and a holder change comes at least `D` after the replaced renewal |
| LeaderElection.ExpiredFromYear10000 | crates/controllers/src/leaderelection.rs:74-102 | a lease taken this second already looks expired exactly from the year 10000 on |
| LeaderElection.TakeableExactly | crates/controllers/src/leaderelection.rs:48-85 | before the year 10000 another holder's lease can be taken over exactly if `D` is 0, or no time parses and `now >= D`, or the time that counts names a year from 1970 on and is at least `D` ago |
| LeaderElection.StuckExactly | crates/controllers/src/leaderelection.rs:48-85 | it can not be at any time before the year 10000 exactly if `D` is positive and the time that counts names a year before 1970 or lies too far ahead |
| LeaderElection.LeaseBefore1970IsStuck | crates/controllers/src/leaderelection.rs:48-85 | a lease whose time that counts, renewal or else acquisition, names a year before 1970, real date or not, can not be taken over |
| LeaderElection.SecondBefore1970 | crates/controllers/src/leaderelection.rs:74-85 | two concrete such leases, under either member |
| Time.ParseOfNow | crates/common/src/time.rs:12-51 | parsing a printed instant gives it back exactly for instants before the year 10000, and nothing from there on |
| Time.NowOfParse | crates/common/src/time.rs:26-51 | printing a parsed string gives it back exactly for real dates from 1970 on |
| Time.WrapsBefore1970 | crates/common/src/time.rs:26-62 | every string that parses, its date real or not, gives an instant before the year 10000 with its own day number if its year is 1970 or later, and one that wrapped around 64 bits if not |
| Time.LaterPrintsLater | crates/common/src/time.rs:12-22 | the later of any two instants prints lexicographically later exactly if its year does or is the same |
| Time.FourDigitsSort | crates/common/src/time.rs:12-22 | so before the year 10000 printed instants sort as instants |
| Time.Year10000SortsFirst | crates/common/src/time.rs:12-22 | and the first second of the year 10000 sorts before the one that precedes it |
| Time.CivilIsReal | crates/common/src/time.rs:64-76 | every day number yields a real Gregorian date that counts back to it |
| Time.RealComesBack | crates/common/src/time.rs:53-62 | every real date from 1970 on comes back from its day number |
| WorkQueue.SharedQueue.Add | crates/controllers/src/workqueue.rs:61-72 | drops a dirty key, marks one being processed, sends any other |
| WorkQueue.SharedQueue.Next | crates/controllers/src/workqueue.rs:77-92 | hands out the oldest key and moves it from dirty to processing |
| WorkQueue.SharedQueue.Done | crates/controllers/src/workqueue.rs:95-108 | sends a key again if it was added meanwhile, and ends its processing |
| WorkQueue.SharedQueue.AddRateLimited | crates/controllers/src/workqueue.rs:132-137 | counts a failure and returns the delay for that count |
| Worker.ServeOne | crates/controllers/src/runner_worker.rs:111-156 | one round of the worker: what each outcome does to the queue; after a conflict or a failure, and then only, the key comes back after the delay for one failure more |
| Worker.ServedIs | crates/controllers/src/runner_worker.rs:111-156 | what a round leaves, member by member: the key gone from channel, dirty and processing, its count cleared, kept or one up, every other key as it was |
| Worker.RoundIsServed | crates/controllers/src/runner_worker.rs:111-156 | an undisturbed round is exactly what its atomic steps add up to, with the key on a timer exactly after a conflict or a failure |
| Worker.BackoffGrows | crates/controllers/src/workqueue.rs:17-21 | delays start at 5 ms, double up to the seventh failure, and are a second exactly from the eighth on |
| ControlLoop.QueueInvStep | crates/controllers/src/workqueue.rs:61-108 | every step keeps: a key is on its way to a worker exactly if it is dirty and not processing, once, and no two workers hold one key |
| ControlLoop.AtMostOneWorker | crates/controllers/src/workqueue.rs:61-108 | in every reachable state a key is in the channel or in hand exactly once or not at all, and at most one worker runs it |
| ControlLoop.CoveredStep | crates/controllers/src/informer.rs:227-275 | every step keeps: a key whose last read is stale has something left to happen to it |
| ControlLoop.QuiescentIsReconciled | crates/controllers/src/runner_worker.rs:111-157 | in every interleaving, a quiescent key was last reconciled against exactly what the cache holds now |
| ControlLoop.BareKeyReadsDefault | crates/controllers/src/runner_worker.rs:218-221 | a key without a namespace is read under `default/`, so it sees its own entry exactly if the two agree |
| ControlLoop.PositionCountsDown | crates/controllers/src/workqueue.rs:79-81 | a key in the channel moves up by exactly one place per receipt |
| ControlLoop.NoLostWakeup | crates/controllers/src/workqueue.rs:61-108 | under fair scheduling a dirty key is eventually handed to a worker, exactly unless a worker is aborted on it first |
| ControlLoop.FailedIsRetried | crates/controllers/src/runner_worker.rs:143-154 | if timers go off too, a key whose round ended in a conflict or a failure is handed out again, exactly unless a worker is aborted on it first |
| ControlLoop.CountsFailures | crates/controllers/src/workqueue.rs:111-137 | in every run the queue counts exactly the failures of a key since its last success |
| ControlLoop.OnlyAbortLeaks | crates/controllers/src/runner.rs:192-199 | a key comes to be processing with no worker on it only by an abort of its worker |
| ControlLoop.LeakIsReachable | crates/controllers/src/runner.rs:192-199 | four steps from the start lead to such a key: add, receive, take, abort |
| ControlLoop.LeakedForever | crates/controllers/src/runner.rs:145-199 | such a key is never handed out again |
| Informer.ObjectStore.ReplaceAll | crates/controllers/src/informer.rs:75-87 | the cache becomes the listed pairs, and the keys returned are those that are gone, each once |
| Informer.ObjectStore.ApplyEvent | crates/controllers/src/informer.rs:89-116 | a put is stamped with its revision and cached under its own key; a deletion removes the key its stored body names, or its path if there is none |
| Informer.ObjectStore.Seed | crates/controllers/src/informer.rs:208-250 | LIST seeds the cache, replays from the newest listed revision, or 1, and calls the handler with exactly a put per listed object in order, then a deletion per removed key |
| Informer.ObjectStore.Drain | crates/controllers/src/informer.rs:263-273 | every replayed event is normalized, applied and handed on, in order |
| CacheLaws.ProjectionsAgree | crates/controllers/src/informer.rs:93-179 | LIST and WATCH show one entry alike exactly if its body names no namespace or its path's |
| CacheLaws.SeedIsView | crates/controllers/src/informer.rs:221-227 | LIST seeds the cache with exactly the store's view, at every key |
| CacheLaws.StartIsNewest | crates/controllers/src/informer.rs:221-250 | no listed object is newer than the first revision replayed, which is 1 or that of a listed object |
| CacheLaws.CacheIsFate | crates/controllers/src/informer.rs:263-273 | after any number of replayed events every key holds what the events of its own path made of it |
| CacheLaws.Converges | crates/controllers/src/informer.rs:207-281 | from the listed revision on the cache equals the store's view at every key, exactly except where an object's last deletion named no namespace and the cache had it; a live object is always there with its current value |
| CacheLaws.NamespacedConverges | crates/controllers/src/informer.rs:207-281 | with namespaces in the deleted bodies, cache and store agree at every key |
| UnheardDeletion.DroppedNamespaceGoesUnheard | crates/apiserver/src/item.rs:266-307 | an object whose namespace a PATCH takes out before a DELETE stays in the cache of every informer that listed before the deletion, while the store has nothing under its path |
| UnheardDeletion.DeletionGoesUnheard | crates/apiserver/src/item.rs:125-307 | three requests from the empty store after which the cache holds `default/a` and the store is empty |
| CacheLaws.WhileReplaying | crates/controllers/src/informer.rs:247-273 | until the replay has caught up, a key shows the revision replayed if it was touched, and the listed one if not |
| CacheLaws.ListedStays | crates/controllers/src/informer.rs:247-273 | until the replay has caught up, a listed object is in the cache just as it was listed |
| CacheLaws.CacheNeverAges | crates/controllers/src/informer.rs:207-281 | from any replayed revision to any later one, what a key shows never gets older |
| CacheLaws.Resurrected | crates/controllers/src/informer.rs:247-273 | an object put and deleted before the LIST comes back for a while and is gone again at the listed revision |
| CacheLaws.CachedUnderBodyName | crates/controllers/src/informer.rs:223-227 | LIST caches an object under the key of its path exactly if its body carries the name of its path |
| CacheLaws.MisnamedPut | crates/controllers/src/informer.rs:89-107 | in any log, a put moves the cache at the key its body names and nowhere else; that is the key of its path exactly if the body has its name and no other namespace, and if not that key shows what it did |
| CacheLaws.MisnamedDelete | crates/controllers/src/informer.rs:107-116 | and its deletion removes the key the stored body names |
| Renaming.RenameLeavesBoth | crates/apiserver/src/item.rs:266-307 | CREATE, PATCH of the name, DELETE: an earlier informer holds the object under both names, and after the deletion under its first, when the store is empty |
| CacheLaws.RelistHandlesEveryKey | crates/controllers/src/informer.rs:227-245 | those calls of a re-LIST are under the listed and the removed keys, and no others |
| CacheLaws.HandlerSeesListing | crates/controllers/src/informer.rs:228-237 | of each listed object the handler is told a put of what LIST shows, under its own path and revision |
| CacheLaws.HandlerSeesRemoval | crates/controllers/src/informer.rs:238-245 | of a removed key it is told a deletion under the path it had, at the first revision to be replayed |
| CacheLaws.HandlerIsTold | crates/controllers/src/informer.rs:136-145 | an event changes at most the cache key its handler call names |
| StrategicMerge.StrategicMergeInPlace | crates/api/src/patch.rs:87-94 | never fails, and leaves the target as the merge's meaning says |
| StrategicMerge.MergeValueInPlace | crates/api/src/patch.rs:96-144 | the member loop with its path stack computes the meaning and restores the path |
| StrategicMerge.MergeListInPlace | crates/api/src/patch.rs:146-223 | the key index and tombstones compute: target elements in order, each folded with its key's patches, then new keys and keyless elements, deleted ones dropped |
| MergeLaws.AgreesWithRfc7386 | crates/apiserver/src/item.rs:309-337 | without a strategy the merge is MergePatch of section 2 of RFC 7386 exactly if the patch has no delete directive and no null in an object new to the target |
| MergeLaws.NestedNullIsStored | crates/api/src/patch.rs:123-131 | a concrete patch on which the two differ |
| MergeLaws.Idempotent | crates/api/src/patch.rs:96-223 | applying a patch twice is applying it once, when list keys are present and distinct and nulls and directives meet what they name |
| MergeLaws.IdempotentExactly | crates/api/src/patch.rs:96-223 | where merge keys are present and distinct that condition is exact, under every strategy |
| MergeLaws.NoStrategyIdempotence | crates/api/src/patch.rs:96-144 | without a strategy it is exact for every patch |
| MergeLaws.MergedListOrder | crates/api/src/patch.rs:170-221 | every merged element comes from one target or patch element, in order, with its key; unpatched target elements stay |
| MergeLaws.MergedKeysDistinct | crates/api/src/patch.rs:165-207 | distinct keys in the target give distinct keys in the result |
| MergeLaws.KeyedPresence | crates/api/src/patch.rs:185-201 | a patched key is in the result exactly if its patch element is no delete directive |
| MergeLaws.MergedElement | crates/api/src/patch.rs:191-201 | an element under a patched key is the target's merged with the patch, or the patch's own |
| MergeLaws.UnmentionedIsKept | crates/api/src/patch.rs:113-134 | what a patch does not mention is unchanged, at every depth |
| PatchRequests.ApplyPatch | crates/apiserver/src/item.rs:309-338 | the content type chooses the codec, and the edit is what that codec means |
| PatchRequests.CodecExactly | crates/apiserver/src/item.rs:315-337 | for every content type which codec it selects, by the names that occur in it |
| PatchRequests.MergePatchRequest | crates/apiserver/src/item.rs:328-337 | under every content type that selects the merge-patch codec, the object is edited as RFC 7386 says exactly if the patch conforms to it |
| PatchRequests.StrategicMergePatchType | crates/apiserver/src/item.rs:321-334 | the strategic type, which also names merge-patch, gets the core/v1 merge keys |
| PatchRequests.JsonPatchType | crates/apiserver/src/item.rs:321-327 | the JSON Patch type gets neither merge codec |
| CoreLists.CoreListEdit | crates/api/src/patch.rs:48-76 | a strategic patch of one container, init or ephemeral container, volume or pull secret merges the one of that name where it stands, adds an unknown one at the end, deletes on a directive, and changes no other |
| CoreLists.ContainerPortEdit | crates/api/src/patch.rs:48-76 | inside one container, the same for one port by `containerPort`, and nothing else changes |
| CoreLists.ContainerEnvEdit | crates/api/src/patch.rs:48-76 | and for one variable by `name` |
| CoreLists.ContainerListIsReplaced | crates/api/src/patch.rs:48-76 | any other list of a container is replaced |
| CoreLists.OtherListsAreReplaced | crates/api/src/patch.rs:48-76 | and so is every other list of an object |
| CoreLists.KeyOfIs | crates/api/src/patch.rs:225-233 | a merge key is a string, or an integer of 64 bits as it prints |
| CoreLists.DirectiveIs | crates/api/src/patch.rs:235-237 | only `"$patch": "delete"` is a delete directive |
| CoreLists.TwoMerged | crates/api/src/patch.rs:170-221 | of a repeated key the last element is patched, by all its patches in order, and one delete among them takes it out |
| Canonical.CanonicalJson | crates/controllers/src/id.rs:46-77 | appends the document with its members sorted at every depth |
| CanonicalLaws.ReadBack | crates/controllers/src/id.rs:49-77 | a rendered document inside any text can be read back in only one way |
| CanonicalLaws.NormalForm | crates/controllers/src/id.rs:51-53 | two documents sort into one exactly if they are equal up to member order |
| CanonicalLaws.RenderingIsCanonical | crates/controllers/src/id.rs:46-77 | two documents render to one string exactly if they are equal up to member order at every depth |
| Canonical.Fnv1a | crates/controllers/src/id.rs:79-86 | the loop folds every byte into the 64-bit hash |
| Canonical.TemplateHash | crates/controllers/src/id.rs:40-44 | sixteen hexadecimal digits of the hash of the canonical bytes |
| JsonText.EscapesReadBack | crates/controllers/src/id.rs:46-77 | an escaped string reads back by section 7 of RFC 8259 |
| JsonText.CanonicalIsJson | crates/controllers/src/id.rs:46-77 | the rendering is a JSON text of the very document, with its members sorted by name at every depth |
| JsonText.Utf8ReadsBack | crates/controllers/src/id.rs:40-44 | its bytes are UTF-8 by the table of section 3 of RFC 3629 |
| JsonText.FnvKnown | crates/controllers/src/id.rs:79-86 | the hash has the published values of 64-bit FNV-1a |
| JsonText.HashTextDenotes | crates/controllers/src/id.rs:40-44 | the template hash is sixteen lower-case digits that denote the hash |
| CanonicalLaws.HashIgnoresMemberOrder | crates/controllers/src/id.rs:30-44 | the template hash does not depend on construction order |
| Framing.ParseHead | crates/kubelet/src/framing.rs:14-44 | status code, then the headers' effects in order |
| Framing.DecodeChunkedAll | crates/kubelet/src/framing.rs:77-108 | the loop decodes round by round, and its position advances in every round |
| FramingLaws.DecodesExactly | crates/kubelet/src/framing.rs:77-108 | a body decodes to a payload exactly if it is a chunked encoding of it: any chunks, any size spelling, any extensions and trailers |
| FramingLaws.DecodeErrors | crates/kubelet/src/framing.rs:79-108 | what is said of a body whose first round does not decode |
| FramingLaws.NoLineNoChunk | crates/kubelet/src/framing.rs:82-85 | and of one without a line |
| FramingLaws.DecodeUndoesEncode | crates/kubelet/src/framing.rs:77-108 | an encoding decodes to its payload wherever in a buffer it stands |
| FramingLaws.StandardSizeLine | crates/kubelet/src/framing.rs:86-89 | every size line of section 7.1 of RFC 9112 announces the number its digits denote |
| FramingLaws.HexParsesExactly | crates/kubelet/src/framing.rs:86-89 | which texts parse as a size |
| FramingLaws.ChunkedResponse | crates/kubelet/src/framing.rs:54-75 | a whole chunked response parses to the head's code and exactly the payload |
| HeadLaws.LastLengthWins | crates/kubelet/src/framing.rs:33-42 | the last `Content-Length` decides, and one that does not parse clears an earlier one |
| HeadLaws.LastEncodingWins | crates/kubelet/src/framing.rs:33-42 | the last `Transfer-Encoding` decides |
| HeadLaws.HeadReadsBack | crates/kubelet/src/framing.rs:14-44 | a head written with any code, reason and length reads back |
| HeadLaws.LengthResponse | crates/kubelet/src/framing.rs:54-75 | a response written with its length reads back its code and exactly its body, whatever follows |
| HeadLaws.ResponseIs | crates/kubelet/src/framing.rs:54-75 | every response whose head is complete, case by case: bad head, chunks, length, truncation, and the rest of the stream |
| HeadLaws.NoHeadNoResponse | crates/kubelet/src/framing.rs:54-60 | a response is refused for want of a head exactly if there is no blank line |
| HeadLaws.StatusLineIs | crates/kubelet/src/framing.rs:14-32 | which status lines are accepted, and what is said of the others |
| Text.ParsesExactly | crates/kubelet/src/framing.rs:14-44 | which texts parse as a number: digits below the limit, with or without a plus sign |
| HeadLaws.TrimIs | crates/kubelet/src/framing.rs:14-44 | trimming takes the ASCII blanks off both ends and nothing else |
| HeadLaws.CompleteExactly | crates/kubelet/src/http.rs:181-186 | reading may stop exactly when the announced length follows the head |
| HeadLaws.IncompleteHead | crates/kubelet/src/http.rs:181-186 | nor before the head is complete |
| Framing.ShapeIsStable | crates/kubelet/src/framing.rs:46-52 | once the head is complete, more bytes do not change the shape |
| Framing.EarlyStopIsSafe | crates/kubelet/src/http.rs:181-186 | where the loop may stop, what is still to come does not change the result |
| Framing.ReadResponse | crates/kubelet/src/http.rs:179-196 | however the stream is split into non-empty reads, the result is that of the whole stream, and nothing is read once the response is complete |
| NodePorts.DefaultService | crates/apiserver/src/service.rs:94-164 | what defaulting leaves of body and ports in use, also when it fails part way |
| NodePortLaws.PortReads | crates/apiserver/src/service.rs:39-52 | what number and what protocol a port entry asks for |
| NodePortLaws.NodePortTypes | crates/apiserver/src/service.rs:33-37 | which Services have node ports |
| Healing.Heal | crates/apiserver/src/service.rs:179-231 | at most five rounds of list, drop, number anew and swap, with any writes of others in between, leave store and entry exactly as that says; the entry was really written, and the loop ended as `Healing.HealEnds` says |
| Healing.HealEnds | crates/apiserver/src/service.rs:179-231 | between start and end there are only writes of others, but for at most one swap: it comes last, replaces the very version looked at, and is disjoint from what the store held when it was listed in this run |
| Healing.HealGoesOn | crates/apiserver/src/service.rs:217-227 | a heal that lost its race goes on, in its next round, with the version that is there by then |
| Healing.UndisturbedHeal | crates/apiserver/src/service.rs:184-223 | undisturbed, the Service ends disjoint from all others exactly if it was, when nothing is written, or if what it can drop passes the defaulting |
| NodePortLaws.ProgressGives | crates/apiserver/src/service.rs:122-162 | every port gets its own number or the lowest free at its turn, in range, distinct, not in use |
| NodePortLaws.DefaultedIsSound | crates/apiserver/src/service.rs:94-164 | a defaulted Service is disjoint from what was in use, which grows by exactly its pairs |
| NodePortLaws.DefaultedTypeIs | crates/apiserver/src/service.rs:99-121 | a missing or empty type becomes `ClusterIP`, and nothing but type and ports changes |
| NodePortLaws.PassesExactly | crates/apiserver/src/service.rs:122-162 | a list of ports is accepted exactly if every number asked for is in range, free, new and not below reach of the open ports before it, and every open port finds one left |
| NodePortLaws.RefusedFor | crates/apiserver/src/service.rs:122-162 | why a list that is not accepted is refused, by its first port that does not pass |
| NodePortLaws.GetsExactly | crates/apiserver/src/service.rs:122-162 | in an accepted list each port gets the number it asks for, or the free one with as many free numbers below it as there are open ports before |
| NodePortLaws.ShowsExactly | crates/apiserver/src/service.rs:94-164 | so exactly which pairs a Service shows after a successful defaulting |
| NodePortLaws.OrderDecides | crates/apiserver/src/service.rs:139-148 | the same two ports are refused in one order and accepted in the other |
| NodePortLaws.HealedIsDisjoint | crates/apiserver/src/service.rs:203-220 | a swapped heal is disjoint from its listing, keeps the ports that did not collide and renumbers those that did |
| NodePortLaws.HealsExactly | crates/apiserver/src/service.rs:203-218 | a heal can help exactly if the list with the colliding numbers dropped is accepted |
| NodePortLaws.HealsBlindExactly | crates/apiserver/src/service.rs:203-218 | the same for a Service numbered after a failed listing, counted out from the ports its sender asked for |
| NodePortLaws.HealStuck | crates/apiserver/src/service.rs:203-218 | a Service that is never healed although numbers are free |
| ServicePorts.CreatedServiceIsApart | crates/apiserver/src/collection.rs:106-133 | a created Service, healed undisturbed, shares nothing with the others exactly if it was listed, or its counted numbers are all free, or the heal lists and the reopened ports pass |
| ServicePorts.RequestKeepsApart | crates/apiserver/src/item.rs:68-371 | a granted request of any kind keeps the stored Services pairwise disjoint exactly if it is clear, which its sender can check |
| ServicePorts.RunsStayApartExactly | crates/apiserver/src/service.rs:166-231 | a run of requests from the empty store keeps them so all along exactly if each granted request is clear |
| ServicePorts.SequentialCreatesAreDisjoint | crates/apiserver/src/service.rs:166-177 | in particular every run of deletes and of creates whose listings succeed |
| ServicePorts.BlindCreateCollides | crates/apiserver/src/service.rs:171-176 | with TCP/30000 held, an unlisted create hands it out again; the heal puts that right exactly if its listing succeeds |
| ServicePorts.ReplaceCanCollide | crates/apiserver/src/item.rs:68-307 | from two Services apart, a PUT or a PATCH that is granted gives one the number of the other |
| ServicePorts.RefusedChangesNothing | crates/apiserver/src/item.rs:68-371 | a request that is refused changes nothing |
| Pagination.PagesAreComplete | crates/apiserver/src/collection.rs:211-232 | over key-sorted lists that change between pages keys strictly increase, and a finished walk has every key that was always there |
| Pagination.ReturnsTheListExactly | crates/apiserver/src/collection.rs:211-232 | an unchanged list comes back slice by slice exactly if wherever a page begins every earlier key is smaller |
| Pagination.SortedListComesBack | crates/apiserver/src/collection.rs:211-232 | a key-sorted list does, an empty one in one empty page |
| Pagination.NoLimitIsWhole | crates/apiserver/src/collection.rs:211-232 | without a limit one page has everything from its token on |
| Pagination.WalkNeverEnds | crates/storage/src/embedded.rs:108-124 | after any two creates, the larger path first, every walk over what the store lists in revision order returns its first page for ever |
| Pagination.PodsWalkNeverEnds | crates/storage/src/embedded.rs:108-124 | for instance over the pods `b` and then `a` of one namespace |
| ApiServer.Server.DoCreate | crates/apiserver/src/collection.rs:61-140 | prepares the body, numbers a Service against the stored ones or, if they cannot be listed, against none, stores it and heals it, while others write before and after, or answers which check refused it |
| ApiServer.Server.Allocate | crates/apiserver/src/service.rs:166-177 | defaults a Service against what all stored Services hold, or against nothing if they cannot be listed |
| RequestLaws.CreateAnswers | crates/apiserver/src/collection.rs:61-140 | what a create of anything but a Service answers in every case |
| RequestLaws.ServiceCreateAnswers | crates/apiserver/src/collection.rs:106-121 | a Service is refused besides that exactly if its ports do not pass |
| RequestLaws.CreateStores | crates/apiserver/src/collection.rs:71-113 | a create keeps everything of the body but type, name, namespace, uid and a missing finalizer of a Namespace, which becomes `kubernetes` |
| ApiServer.UndisturbedCreate | crates/apiserver/src/collection.rs:106-133 | if a listed create meets no write between its listing and the heal's, the heal changes nothing |
| ApiServer.RacedCreate | crates/apiserver/src/service.rs:179-231 | if others write between listing and create, an undisturbed heal leaves the Service disjoint exactly if it did not collide or what it can drop passes |
| ApiServer.Server.DoReplace | crates/apiserver/src/item.rs:68-108 | replaces under the body's revision, within the path's namespace, and finalizes |
| RequestLaws.ReplaceAnswers | crates/apiserver/src/item.rs:68-108 | what a PUT answers in every case; it conflicts exactly if the body's `resourceVersion` is a revision and not the stored one |
| RequestLaws.ReplaceStores | crates/apiserver/src/item.rs:77-104 | a granted PUT stores the body at the next revision with the type and namespace of the path, everything else unchanged, and answers with it |
| ApiServer.Server.DoPatch | crates/apiserver/src/item.rs:266-307 | patches what was read under its revision, whatever others write in between, and finalizes |
| RequestLaws.PatchAnswers | crates/apiserver/src/item.rs:266-307 | what a PATCH answers in every case |
| RequestLaws.PatchStores | crates/apiserver/src/item.rs:291-303 | a granted PATCH stores the edited body at the next revision with the type of the path and answers with it |
| RequestLaws.RacedPatch | crates/apiserver/src/item.rs:291-307 | a PATCH applies to the version it was computed from, or is refused and writes nothing |
| ApiServer.Server.DoDelete | crates/apiserver/src/item.rs:125-175 | chooses between soft, orphaning and hard delete by the body it read, whatever others write in between |
| RequestLaws.DeleteAnswers | crates/apiserver/src/item.rs:125-175 | what a DELETE answers in every case |
| RequestLaws.DeleteStores | crates/apiserver/src/item.rs:154-264 | a granted DELETE removes an object nothing holds, stamps one that something holds and changes nothing else of it, or nothing if it is stamped; it answers with that version |
| RequestLaws.RacedDelete | crates/apiserver/src/item.rs:219-264 | a DELETE that stamps or marks does so to the version it read, or is refused |
| RequestLaws.RacedOrphan | crates/apiserver/src/item.rs:245-251 | an orphaning DELETE removes the version it marked, or leaves what somebody wrote since |
| ApiServer.Server.SoftDelete | crates/apiserver/src/item.rs:195-233 | stamps once, under the request's revision or the one read |
| ApiServer.Server.OrphanDelete | crates/apiserver/src/item.rs:235-264 | marks, then removes under the fresh revision |
| RequestLaws.MarkKeepsRest | crates/apiserver/src/item.rs:235-264 | the mark is one annotation beside the others, and nothing else |
| ApiServer.Server.FinalizeIfComplete | crates/apiserver/src/item.rs:362-371 | removes a stamped object whose finalizers are gone |
| FinalizerLaws.GatingHolds | crates/apiserver/src/item.rs:110-371 | over every run no stored object is stamped without finalizers, and every removed object had none when it was removed |
| FinalizerLaws.OnlyCreatesCanBreak | crates/apiserver/src/collection.rs:106-113 | a create that succeeds keeps this exactly if it is not stamped without finalizers or is a Namespace; nothing else can break it |
| FinalizerLaws.RepeatedDeleteChangesNothing | crates/apiserver/src/item.rs:195-217 | a DELETE of a stamped object changes nothing, whatever its parameters |
| FinalizerLaws.DeleteIsGated | crates/apiserver/src/item.rs:154-156 | a DELETE of an object with finalizers leaves it there with them, stamped if it succeeds |
| FinalizerLaws.StaleDeleteExactly | crates/apiserver/src/item.rs:139-175 | a DELETE is refused for its revision exactly if that parses, is not the live one, and the object is neither stamped nor orphaned without finalizers |
| FinalizerLaws.UnparsedRevisionIsNone | crates/apiserver/src/item.rs:139-142 | a `resourceVersion` that does not parse is ignored |
| FinalizerLaws.ReplaceCanClearTheStamp | crates/apiserver/src/item.rs:68-108 | after a PUT the object is gone exactly if the body is stamped without finalizers, and stamped exactly if the body is |
| FinalizerLaws.OrphanDeleteIsMarked | crates/apiserver/src/item.rs:235-264 | an orphaning DELETE removes the object, and the logged deletion carries the orphan mark if the body can hold one |
| FinalizerLaws.CreatedObject | crates/apiserver/src/collection.rs:71-113 | a create stores its name, own or generated, the path's type and namespace, and a uid |
| FinalizerLaws.OthersStay | crates/apiserver/src/item.rs:68-371 | no request touches another object |

## Left out

- MergeLaws.IdempotentExactly: says nothing of patches with repeated or missing merge keys, which can happen to settle all the same.
- ControlLoop.QuiescentIsReconciled: speaks of keys with a namespace; Namespaces and Nodes are reconciled under bare names by other lookups.
- CacheLaws.Converges: bodies carry the name of their path and no other namespace. The API server checks the name neither on a replace nor on a patch, and the namespace not on a patch; `CacheLaws.CachedUnderBodyName`, `CacheLaws.MisnamedPut` and `CacheLaws.MisnamedDelete` say what the cache holds after such a body, put by put.
- LeaderElection.NoEarlyTakeover: other writers leave the Lease object alone, clocks print four-digit years and revisions fit 64 bits.
- Routing, TCP, timeouts, logging, subprocesses and the tokio runtime: I/O. Clocks, random suffixes, uids and the answers of other writers are parameters or free steps.
- Endless loops: the worker, informer and elector loops are modelled by one round each (`Worker.ServeOne`, `Informer.ObjectStore.Seed` and `Drain`, `LeaderElector.TryAcquireOrRenew`) and by transition systems over all their rounds; stopping them is modelled for electors only.
- Debug builds, where integer overflow panics: the model wraps, as release builds do.
- JSON: an object's member order exists in `Canonical` only. Numbers that are not integers are known by the text they print as, so `0.0` and `-0.0` differ.
- UTF-8 decoding in HTTP heads and size lines: a byte string has one character per byte, so only ASCII blanks are trimmed.
- Retained history and its compaction, and watchers that lag: a watch that fails ends the round, and the next LIST starts another, which the cache theorems cover from its own revision on.
- Real-time delays: a timer is a pending add that may fire at any step. Failure counts do not wrap at 32 bits.
- A LIST over HTTP reads items and revision in two steps; nothing is claimed about its revision.
- Concurrent NodePort healers: a heal is disjoint from what was held when it listed, not from what others write after that. Creates that others disturb are in `Healing` and `ApiServer`; in `FinalizerLaws` and `ServicePorts` a create and its heal are one step.
- API handlers are atomic steps in `FinalizerLaws` and `ServicePorts`; `RequestLaws` has what becomes of one PATCH or DELETE that others race. An unconditional delete, and the one that finalizes, remove whatever is there by then; server-side apply, which does not finalize, is not modelled. JSON Patch is covered as an arbitrary edit.
- Reconcilers, scheduler, kubelet sync, watch-stream decoding, discovery, schemas, CLI: they would only add easy members, or are opaque here.
- Hash collisions of FNV-1a: equal hashes do not mean equal templates.
