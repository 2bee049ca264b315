# Claimward VPN control plane: a Dafny model and its proofs

The Claimward server enrolls devices into a WireGuard VPN. Its state lives in memory, in parts that have to agree: the store of enrolled peers, the address pool, the WireGuard device, the tenant table with its watchers, and the identity provider's list of registered keys. This project models those parts and proves what keeps them in agreement over every run.

## How it is laid out

| files | what they hold |
|---|---|
| `Ipv4.dfy`, `Ipam.dfy` | addresses as bytes, masks, `next` and `isBroadcast` as byte loops, and the allocator, against numbers and intervals |
| `Tenancy.dfy`, `Rules.dfy` | slugs, membership rules, `For`, `chooseTenant`, the table of tenants; and what all of these mean, said of the strings themselves |
| `Registry.dfy`, `PeerStore.dfy`, `Gateway.dfy` | the key list, the peer store (shared mutable peers), the device and the restart sweep |
| `Control.dfy` | the enrollment state machine: every handler, the reaper, reconciliation, refreshes and tenant administration as one `Step` |
| `Joint.dfy`, `Ownership.dfy`, `Leases.dfy`, `Devices.dfy`, `Capacity.dfy` | what every step and every run of that machine keeps |
| `Answers.dfy` | what each request is answered and changes, both ways, field by field |
| `Witnesses.dfy` | runs of a fresh server: any number of devices put on one address, and the same keys enrolled without a failure |
| `Server.dfy` | the handlers over live objects, each proved to take the whole state through exactly that step |
| `Broadcast.dfy`, `BroadcastProof.dfy` | the route broadcast protocol, one channel operation at a time, in any interleaving with the receivers |
| `TenantStore.dfy`, `RouteService.dfy` | the tenant store and the `Watch` call as running code, each method a run of that protocol |
| `Polling.dfy` | the SSF poller (polling is section 2.4 of RFC 8936), the kick and the fetch loop |

## What is assumed

- A handler, the reaper and `Reconcile` are each one atomic step of the enrollment machine. The source holds no lock across them. The allocator's and the broadcast's results need no such assumption: they hold call by call, and channel operation by channel operation.
- Device failures, fetched lists, poll answers, clock readings and verified claims are inputs. A handler's clock readings may differ from each other; only the results about a silent provider assume a clock that does not run backwards.
- Serials, subscriber ids and instants are unbounded.
- The pool is a 32-bit address and a prefix length from 0 to 32 (prefix notation is section 3.1 of RFC 4632). A set of 4-byte addresses stands for the map keyed by their text, which is one to one.
- How a request string parses to a key is a parameter. The results about the device are about runs that take their keys from a set of strings: where there is a registry, the strings its lists name; where there is none, those that requests carry. They hold if and only if no two strings of the set parse to one key, or the pool has no host beside the gateway's: `Devices.AgreementIffInjective` and `Devices.ManagedIffInjective`. A registry names every key by its canonical text (internal/peers/peers.go:49), so there the condition is met.

## Where the code and its promises part

- A re-enrollment whose `AddPeer` fails releases an address that is still held. `Joint.StepKeepsJointIff` shows this is the only step that breaks the joint invariant, and `Joint.DoubleAssignment` says when the next device then gets the same address. With it go all bounds on the number of devices: `Witnesses.AnyNumberOnOneAddress` and `Capacity.BoundFails` enroll as many as there are keys on a pool that has room for one. What survives even so, in every run, is `Joint.RunKeepsSafe`, `Joint.RunKeepsSound` and `Capacity.ExhaustedInAnyRun`.
- An enrolled key is to stay with whoever enrolled it (internal/api/api.go:191-195), but the store knows a key by the request's string. `wgtypes.ParseKey`, which is not part of this model, decodes base64 that may hold line breaks or spare bits, so one key has several strings. Without a registry a second string is enrolled by anybody who gets a tenant, while addresses are left, as another key, and the device's peer moves to its address: `Devices.AliasTakesOver`. Two subjects then share one device peer, and when one deregisters the other loses it: `Devices.AliasedKeysDisagree`. No failure of anything is needed once a pool has room for two: `Devices.FaultlessAgreementIff`.
- A watcher that subscribed to a name no tenant had yet is put under the default tenant. If a tenant takes the name before it unsubscribes, it stays registered: `BroadcastProof.UnsubscribeEndsIff` and `BroadcastProof.WatcherIsLeaked`.
- The registry's comments say that tunnels already up are not torn down when the list expires. Reconciling against a list that has expired tears all of them down: `Leases.ReconcileAtInstant`, and `Leases.ExpiredListTearsDown` for a run in which it happens to a key in good standing.
- The allocator's comments say it is re-seeded from the store at startup through `Reserve`. Startup never calls `Reserve`; it sweeps the device instead.

## Model

| member | source | states |
|---|---|---|
| `Ipv4.Next` | internal/ipam/ipam.go:85-94 | the byte loop with carry is +1 modulo 2^32 |
| `Ipv4.IsBroadcast` | internal/ipam/ipam.go:96-102 | the OR-mask loop recognises exactly the last address of the pool |
| `Ipv4.BroadcastIsLast` | internal/ipam/ipam.go:96-102 | network OR inverted mask is the network address plus 2^(32-p) - 1, for every base and prefix |
| `Ipv4.ContainsIsInterval` | internal/ipam/ipam.go:45 | matching under the mask is lying between network and broadcast address, both ways |
| `Ipam.LowestFree` | internal/ipam/ipam.go:42-55 | the reference: the numerically lowest free host, none exactly when every host is used |
| `Ipam.Allocator.constructor` | internal/ipam/ipam.go:24-36 | a new pool has only the gateway's address used, the one after the network address |
| `Ipam.Allocator.Allocate` | internal/ipam/ipam.go:42-55 | the scan terminates for every prefix, /0 included, and returns and marks the lowest free host, or nothing |
| `Ipam.Allocator.Reserve` | internal/ipam/ipam.go:60-71 | succeeds exactly for unused addresses of the pool, and then marks them |
| `Ipam.Allocator.Release` | internal/ipam/ipam.go:74-78 | the address is no longer used, nothing else changes |
| `Ipam.GrantsAreExclusive` | internal/ipam/ipam.go:42-78 | in any sequence of calls, between two grants of one address there is a release of it |
| `Ipam.InitiallyUsedKept` | internal/ipam/ipam.go:32-36 | the gateway's address is granted only if it was released before |
| `Tenancy.ComputeSlug` | internal/tenant/store.go:277-289 | the loop computes the slug function |
| `Tenancy.SlugFixpoints` | internal/tenant/store.go:277-289 | a slug has only a-z, 0-9 and '-', none at either end, and the strings of that shape are exactly the fixpoints |
| `Tenancy.SlugIdempotent` | internal/tenant/store.go:277-289 | slug of a slug is itself |
| `Rules.SlugSpells` | internal/tenant/store.go:277-289 | of letters, digits and inner separators every ' ', '_', '-' and '.' becomes '-' and every letter its lower case, one for one |
| `Rules.SlugIgnores` | internal/tenant/store.go:277-289 | any other character is as good as not there, wherever it is |
| `Rules.SlugIgnoresEnds` | internal/tenant/store.go:288 | and so is a separator at either end |
| `Tenancy.DomainMeaning` | internal/tenant/store.go:80-81 | an address's domain is what follows its last '@', and there is none without an '@' |
| `Tenancy.Belongs` | internal/tenant/store.go:78-104 | the loops over domains, groups and institutions decide membership by any rule, the domain only of a verified address |
| `Rules.BelongsIff` | internal/tenant/store.go:78-104 | somebody belongs exactly by a verified address at a listed domain, a nonempty listed group, or a listed institution, each rule in any padding and domains in any case |
| `Rules.UnverifiedIsIgnored` | internal/tenant/store.go:75-79 | an unverified address makes no difference to any membership, whatever it says |
| `Rules.DomainAdmits` | internal/tenant/store.go:79-88 | a verified address somewhere@domain belongs wherever the domain is listed |
| `Rules.GroupAdmits` | internal/tenant/store.go:90-103 | a listed group, or a listed institution, is enough alone |
| `Rules.BlankAdmitsNobody` | internal/tenant/store.go:78-105 | without domains, and with blank rules or none, nobody belongs |
| `Tenancy.For` | internal/tenant/store.go:108-122 | a nonempty list sorted by ID without repeats, of exactly the tenants somebody belongs to, or the default alone if there are none |
| `Rules.LessIff` | internal/tenant/store.go:120 | the order is that of the first character that differs, a prefix going first |
| `Tenancy.AnswerIsUnique` | internal/tenant/store.go:108-122 | that list is unique, so the map's iteration order never shows |
| `Tenancy.IsMember` | internal/tenant/store.go:125-132 | agrees with the set of memberships |
| `Tenancy.ChooseTenant` | internal/api/api.go:142-160 | the loop over the caller's tenants decides as the reference function |
| `Rules.ChoiceIff` | internal/api/api.go:137-160 | what is chosen is what was asked for, or the only membership when nothing was; several and none asked, or no member of the one asked, are refused, exactly then |
| `Rules.IdBeforeName` | internal/tenant/store.go:170-173 | an ID that spells an identifier goes before any name |
| `Rules.CreateIff` | internal/tenant/store.go:169-185 | exactly the new tenant is filed, every field its own, under an identifier nobody had, with serial 1; or nothing changes |
| `Rules.UpdateIff` | internal/tenant/store.go:189-205 | every field but the ID is replaced and the serial counts up by one, in that tenant alone |
| `Rules.DeleteIff` | internal/tenant/store.go:208-223 | that tenant alone goes, and never the default one |
| `Registry.LastEntryDecides` | internal/peers/peers.go:47-50 | a key is indexed exactly when listed, and as its last entry says |
| `Registry.Keys.Refresh` | internal/peers/peers.go:42-55 | a fetched list replaces list and index together; a failed fetch leaves both |
| `Registry.Keys.LookupKey` | internal/peers/peers.go:63-74 | fails closed: no list, an expired list, an unlisted or an expired key all give nothing; what it gives is as the list in force says |
| `PeerStore.Store.Put` | internal/store/store.go:45-49 | the peer is stored under its key, every other one unchanged |
| `PeerStore.Store.Delete` | internal/store/store.go:52-58 | the key is gone and its peer returned, every other one unchanged |
| `PeerStore.Store.Renew` | internal/store/store.go:61-70 | writing through the shared peer changes that key's lease alone |
| `PeerStore.Store.Expired` | internal/store/store.go:73-83 | every peer whose lease is at or before now, once each |
| `PeerStore.Store.List` | internal/store/store.go:86-94 | every stored peer once |
| `Gateway.Device.AddPeer` | internal/wg/gateway.go:48-61 | the peer's allowed IPs become the address alone, as a /32; a failure changes nothing |
| `Gateway.Device.RemovePeer` | internal/wg/gateway.go:63-71 | the peer is gone; a failure changes nothing |
| `Gateway.IsOurs` | internal/wg/sweep.go:55-62 | one allowed IP, an IPv4 /32, inside the pool's interval |
| `Gateway.OursIff` | internal/wg/sweep.go:20-24 | the swept shape is exactly what `AddPeer` can have written for an address of the pool |
| `Gateway.Sweep` | internal/wg/sweep.go:34-53 | removes only peers `AddPeer` can have written, counts them, leaves every other as it is, and succeeds exactly when listing and all those removals do, leaving none |
| `Joint.StepKeepsJointIff` | internal/api/api.go:166-309 | a step keeps addresses unique, placed and conserved if and only if it is not a failed re-enrollment |
| `Joint.RunKeepsJoint` | internal/api/api.go:166-309 | every run without one keeps stored addresses distinct hosts, never the gateway's, and all of them used |
| `Joint.JointThroughoutIff` | internal/api/api.go:166-309 | the invariant holds at every point of a run if and only if no event of the run is a failed re-enrollment |
| `Joint.UsedExactly` | internal/ipam/ipam.go:32-36 | under that invariant the used set is exactly the gateway's address and the enrolled ones |
| `Joint.RunKeepsSafe` | internal/api/api.go:166-309 | every run at all, whatever fails, leaks no address and never enrolls the gateway's |
| `Joint.RunKeepsSound` | internal/api/api.go:166-309 | in every run at all, an address that no failed re-enrollment gave back is held by at most one key and, while held, stays used |
| `Joint.UnhurtIff` | internal/api/api.go:209-215 | no address is given back so if and only if the run has no failed re-enrollment, which makes the joint invariant the special case |
| `Joint.DoubleAssignment` | internal/api/api.go:200-213 | after a failed re-enrollment the next new device gets the same address if and only if no lower host was free |
| `Witnesses.AnyNumberOnOneAddress` | internal/api/api.go:200-213 | on every pool with room for a device, a run of a fresh server leaves any keys, however many, each of its own subject, enrolled at one address that counts as free |
| `Ownership.KeyKeptIff` | internal/api/api.go:188-309 | a stored key leaves exactly by its owner's deregistration, a reap at or after its lease's end, or a disallowing reconcile; otherwise subject and address stay |
| `Ownership.WhyHere` | internal/api/api.go:166-225 | a key enrolled at one point and not at an earlier one entered by a successful enrollment in between, of the subject that holds it, at the address it has |
| `Ownership.HoldingIsStable` | internal/api/api.go:190-200 | while a key stays enrolled its subject and address never change, over any run |
| `Ownership.WhyGone` | internal/api/api.go:270-309 | a key enrolled at one point and not at a later one left in one of the three ways in between |
| `Ownership.TableIsFiled` | internal/tenant/store.go:169-223 | every run keeps the default tenant and files every tenant under its own nonempty slug |
| `Ownership.SuccessIsMembership` | internal/api/api.go:182-186 | every successful enrollment or renewal is in an existing tenant the caller then belongs to |
| `Answers.EnrollAnswer` | internal/api/api.go:171-213 | an enrollment is refused for the first thing wrong with it, with that thing's code, and granted when nothing is |
| `Answers.EnrollEffect` | internal/api/api.go:200-241 | every field of the record stored: the caller's, in the tenant asked for, at the address held or the lowest free, until the latest they may hold; the reply says the same and nobody else is touched |
| `Answers.RefusalChangesNothing` | internal/api/api.go:171-215 | a refused enrollment changes nothing, one the device fails at most frees the address its key holds |
| `Answers.HeartbeatAnswer` | internal/api/api.go:248-268 | a renewal is granted exactly to who enrolled the key, in its tenant, and able to hold a lease; it sets the latest lease they may hold and nothing else; each refusal has its cause |
| `Answers.RenewalExtends` | internal/api/api.go:261-267 | without a registry a renewed lease is a full one from the renewal on |
| `Answers.DeregisterAnswer` | internal/api/api.go:275-293 | a stranger gets not_owner and changes nothing; the owner's peer leaves the store, its address is free, and it is off the device exactly if the removal worked |
| `Answers.ReapClears` | internal/api/api.go:297-309 | exactly the leases that are over go, exactly their addresses are freed, and a device peer stays exactly if its removal failed |
| `Answers.ReconcileClears` | internal/api/api.go:73-87 | the same, of exactly the keys not allowed |
| `Leases.GrantIsLatest` | internal/api/api.go:57-69 | what is granted is the latest lease within the TTL and the registration, and the reply tells the lease stored |
| `Leases.LeaseOrigin` | internal/api/api.go:57-69 | a stored lease was set by the last enrollment or renewal: the latest within the TTL and within the key's registration in the list current then |
| `Leases.ReconcileIsExact` | internal/api/api.go:73-87 | exactly the disallowed peers go, exactly their addresses are freed, and the joint invariant stays |
| `Leases.ReconcileAtInstant` | internal/peers/peers.go:63-80 | with a valid list the survivors are those listed, unexpired and under the same subject; with an expired one, nobody |
| `Leases.ExpiredListTearsDown` | internal/peers/peers.go:57-80 | a run of a fresh server in which an enrolled key, still listed to its owner with neither registration nor lease over, is dropped because the list has expired |
| `Leases.VouchedSince` | internal/api/api.go:73-87 | from a reconciliation against the list in force until another list arrives, every enrolled key is in that list under its own subject |
| `Leases.TakenBackStaysGone` | internal/api/api.go:57-87 | a subject whose key that list no longer gives them is not enrolled with it at any point in between |
| `Leases.SilenceBoundsLeases` | internal/peers/peers.go:57-74 | after the last list, expiring at E, every lease in any state ends before E plus the TTL |
| `Leases.SilenceAdmitsNobody` | internal/api/api.go:177-181 | a request that reads the list at or after E is granted nothing and changes nothing |
| `Leases.SilenceEmptiesTheStore` | internal/api/api.go:297-309 | a reap at or after E plus the TTL leaves nobody enrolled |
| `Devices.RunKeepsOnDevice` | internal/api/api.go:209-309 | in every run whose keys come from a set with one string per key, failures included, each stored peer is on the device at exactly its address; with a registry only the lists' strings matter |
| `Devices.AgreementIffInjective` | internal/api/api.go:171-225 | that holds of every run on a set of strings if and only if no two of them parse to one key or the pool has no room, for every pool, with and without a registry |
| `Devices.FaultlessAgreementIff` | internal/api/api.go:171-225 | of every run on the set without a failed re-enrollment it holds if and only if no two of them parse to one key or the pool has no room for two |
| `Devices.AliasTakesOver` | internal/api/api.go:171-215 | a second string for an enrolled key, whoever sends it, is enrolled exactly if it is registered to them, a tenant is chosen, an address is left and the device works; the device's peer is then at its address, and the first stays enrolled |
| `Devices.AliasedKeysDisagree` | internal/api/api.go:270-294 | in a run of a fresh server two subjects hold two strings of one key, one deregisters, and the other's stored peer is off the device |
| `Devices.ManagedIffInjective` | internal/api/api.go:209-309 | if no removal fails, the device peers this server programmed are exactly the stored ones, in every run on a set of strings, under that same exact condition |
| `Devices.SweepUndoesARun` | internal/wg/sweep.go:34-62 | wherever a run stops, what a sweep removes is every peer it programmed, leftovers included, and what it leaves is the foreign peers unchanged |
| `Capacity.ExhaustedInAnyRun` | internal/api/api.go:201-207 | after any run at all a first enrollment is refused for want of addresses exactly when 2^(32-p) - 2 are used, and always for /31 and /32, where nobody is ever enrolled |
| `Capacity.ExhaustedIff` | internal/api/api.go:201-207 | after any run without a failed re-enrollment, exactly at 2^(32-p) - 3 devices, and there are never more |
| `Capacity.UnhurtWithinHosts` | internal/api/api.go:200-215 | in any run the devices at addresses no failed re-enrollment gave back are at most 2^(32-p) - 3 |
| `Capacity.BoundFails` | internal/api/api.go:209-215 | on every pool up to /30 some run enrolls as many devices as there are keys |
| `Server.Server.constructor` | internal/api/api.go:90-92 | a new server is in the machine's initial state, on whatever device it is given |
| `Server.Server.MayHold` | internal/api/api.go:57-69 | the lease a caller may hold, as the reference function says |
| `Server.Server.HandleEnroll` | internal/api/api.go:166-241 | store, pool and device end, and the reply is, as the machine's enrollment step says |
| `Server.Server.HandleHeartbeat` | internal/api/api.go:243-268 | the renewal step, through the shared peer |
| `Server.Server.HandleDeregister` | internal/api/api.go:270-294 | the deregistration step |
| `Server.Server.ReapExpired` | internal/api/api.go:297-309 | the loop over the snapshot drops exactly the lapsed peers from store, pool and device |
| `Server.Server.Reconcile` | internal/api/api.go:73-87 | the loop over the snapshot drops exactly the disallowed peers |
| `Server.Server.RefreshKeys` | internal/peers/peers.go:42-55 | the refresh step: only the list in force changes |
| `Server.Startup` | cmd/claimward-server/main.go:109-124 | the server starts exactly if the sweep succeeds, in the initial state, on a device with nothing left to sweep |
| `BroadcastProof.ApplyKeeps` | internal/tenant/store.go:189-275 | every channel operation of anybody keeps the broadcast invariant |
| `BroadcastProof.SendKeeps` | internal/tenant/store.go:268-273 | when a broadcast sends, the channel is open and empty, and the invariant is kept |
| `BroadcastProof.NeverStuck` | internal/tenant/store.go:266-275 | in no interleaving is a channel closed twice, sent to after close, or a send blocked |
| `BroadcastProof.OpenIffRegistered` | internal/tenant/store.go:208-253 | with the lock free a channel is open exactly while it is registered, over delete and recreate too |
| `BroadcastProof.NoLatestUpdateLost` | internal/tenant/store.go:266-275 | with the lock free a watcher has the current set waiting with a larger serial, or has it as the last it saw |
| `BroadcastProof.SerialsIncrease` | internal/grpcsrv/grpcsrv.go:58-70 | received serials strictly increase, in every state of every run |
| `BroadcastProof.UnsubscribeEndsIff` | internal/tenant/store.go:242-253 | an unsubscription ends a registration if and only if the name still stands for the tenant it is under, and touches no other |
| `BroadcastProof.WatcherIsGone` | internal/grpcsrv/grpcsrv.go:52-53 | one that subscribed while its tenant existed is gone after it, whatever happened to the tenant |
| `BroadcastProof.WatcherIsLeaked` | internal/tenant/store.go:230-238 | one that subscribed to a name taken only later stays registered |
| `TenantStore.Store.constructor` | internal/tenant/store.go:56-63 | the initial state, with the default tenant alone |
| `TenantStore.Store.Create` | internal/tenant/store.go:169-185 | files the tenant under its slug, every field its own, or refuses; no other tenant is touched |
| `TenantStore.Store.Update` | internal/tenant/store.go:189-205 | with receivers running in between, every field of the tenant is the new one, the serial one more, and every watcher of it has the new routes, DNS and serial waiting or as the last it saw |
| `TenantStore.Store.Push` | internal/tenant/store.go:266-275 | the broadcast loop, in any order of channels, is a run of the protocol that ends with the lock free |
| `TenantStore.Store.Delete` | internal/tenant/store.go:208-223 | refuses the default tenant; else drops the tenant and closes exactly its watchers' channels |
| `TenantStore.Store.Subscribe` | internal/tenant/store.go:227-239 | a fresh id and channel under the tenant asked for, or the default one, and its current routes, DNS and serial |
| `TenantStore.Store.Unsubscribe` | internal/tenant/store.go:242-253 | the protocol's unsubscription; the table is unchanged |
| `TenantStore.Store.WatcherCount` | internal/tenant/store.go:256-264 | counts exactly the channels still open |
| `TenantStore.OpenIsSubscribedLessClosed` | internal/tenant/store.go:208-253 | in every run of the protocol the open channels are the subscriptions so far less the closes so far |
| `RouteService.HolderProgresses` | internal/tenant/store.go:266-275 | every operation of whoever holds the lock brings it closer to releasing it |
| `RouteService.HolderFinishes` | internal/tenant/store.go:189-275 | in any interleaving at all, once the lock's holder has made as many moves as it had operations left, the lock has been released |
| `RouteService.HolderCanFinish` | internal/tenant/store.go:189-275 | from every point of every interleaving the holder's own operations are enough to get there |
| `RouteService.Watch` | internal/grpcsrv/grpcsrv.go:52-70 | with anything happening before each turn and before the unsubscription, what the stream gets starts with the current set, has strictly increasing serials and skips nothing received; after a turn of a stream neither done nor failing the last set sent is the current one; at the end, with a value waiting or not, the channel is closed and listed nowhere if the tenant existed at the subscription |
| `Polling.EventsAreServed` | internal/ssfpoll/ssfpoll.go:104-111 | received events are followed by a fetch that starts after their receipt, or one is still owed |
| `Polling.EventsServedOrKickPending` | internal/peers/peers.go:85-101 | with both loops at rest, what is owed is the kick in its slot |
| `Polling.EventsCanBeServed` | internal/peers/peers.go:85-101 | wherever a run stands, one more trip of each loop has a fetch started after the events' receipt, unless the fetch loop has ended |
| `Polling.FetchesAreBounded` | internal/ssfpoll/ssfpoll.go:6-8 | events buy at most one extra fetch per poll that brought any |
| `Polling.FetchesAreCounted` | internal/peers/peers.go:85-101 | fetches started or due are the first, one for each tick and one for each kick taken, and never two at once |
| `Polling.StreamIff` | internal/ssfpoll/ssfpoll.go:67-90 | there is a stream exactly if some poll went out and none failed since |
| `Polling.PollsIff` | internal/ssfpoll/ssfpoll.go:71-99 | a poll goes out exactly if the setup works, or one went out before and none failed since |
| `Polling.AcksAreLastAnswer` | internal/ssfpoll/ssfpoll.go:90-103 | what is acknowledged is exactly the last successful answer, kept across failed polls |
| `Polling.AcksWereKickedFor` | internal/ssfpoll/ssfpoll.go:90-111 | every event acknowledged came in an earlier successful poll that left a kick pending |
| `Polling.Poller.Once` | internal/ssfpoll/ssfpoll.go:84-113 | the new acknowledgements are the answer's events once each, the kick is coalesced, a failure changes neither |
| `Polling.Poller.Turn` | internal/ssfpoll/ssfpoll.go:67-81 | one turn is the machine's ask and answer and kick, or ask and fail; a failure forgets the stream and keeps acknowledgements and kick |

## Left out

- HTTP and gRPC plumbing, JSON, bearer parsing, logging, metrics, configuration, the admin handlers and both user interfaces: wrappers with no property beyond the calls they make.
- Token verification and list signatures: claims and fetched lists are arbitrary inputs.
- Finer interleavings of two handlers on the peer store: handlers are atomic steps of the enrollment machine.
- The kernel moving an allowed IP from one peer to another, and the dry-run gateway: the device is a table of keys, and it can be listed.
- Unicode: trimming, lower-casing, case folding and slugs act on ASCII.
- Error messages and the enrollment answer's fixed fields: a reply is its error code, or the address and lease.
- RouteService.Watch: does not model the caller's authorization before the subscription, and does not say the channel is closed when the tenant is deleted between that check and the subscription; `BroadcastProof.UnsubscribeEndsIff` says exactly when it then is.
- SSF stream setup, token caching and URL checks: whether setup works is an input to the poller.
- `Routes`, `List` and `Get` of the tenant store, and `handleTenants`: readers of the table with no property beyond that of `For`.
