# kube-loxilb, verified model

kube-loxilb is a Kubernetes controller that drives a set of loxilb load-balancer
instances. It decides which instance is master of what, keeps a cache of
load-balancer rules in step with what the instances hold, hands out external
addresses, and publishes them in service status. This project models those
parts in Dafny and proves what they promise, for every input and over every run.

Verify the whole project with `dafny verify dfyconfig.toml`.

## What is proved

Role arbitration (`Clients`, `Election`, `ElectionProperties`, `PassOutcome`, `RoleManager`).
A pass visits the instances in any order (a Go map), scans the clients
cyclically from a carried hint, and first resets all roles when one client owns
everything. With liveness held constant, nothing changes after the second pass,
so rebalancing cannot oscillate; when one pass is enough is told exactly from the
clients before it and the visiting order. A quiet pass gives
every instance exactly one live master and leaves live masters in place; a
rebalanced pass leaves nobody master of everything. Liveness may also change
between the two loops of a pass: at most one master per instance survives that.

Membership (`Membership`, `Discovery`, `LoxiUrls`). Over every run of health
flips, passes, service discoveries and LoxiURL changes there is at most one
master per instance, never a client excluded from roles, and so each publish
sweep tells at most one live client MASTER. Discovery and LoxiURL changes are
characterised exactly, down to object identity. A discovery comes to an end if
and only if every departed client fits the purge channel, whose only reader is
the goroutine that discovers.

Rules (`Rules`, `RuleAgreement`, `RuleManager`, `EndpointChanges`, `Forwarding`). Each loxilb
instance is a map from (address, port, protocol) to rule; any single call may
fail. In every run of syncs, deletions, crashes, joins, purges and
alive-replays, an instance that came without a stray rule, whose alive event was
handled, no call to which failed since, and from under which no rule was dropped unwithdrawn, serves every
service whose last withdrawal all instances acknowledged; when that is every
service it holds exactly the cached rules with endpoints. What a rule forwards to
is stated by mode in the inputs' own terms (`UpdatedForwards`), and so is when a
sync does nothing (`UnchangedIff`). An instance may join
with rules it still holds; a complete replay leaves it without a stray one if and
only if each of its rules with endpoints is still cached. A withdrawal another
instance refused does cost it that service's rules (`TornServesIff`). Addresses
return to a pool only after every instance withdrew every rule. The endpoint
comparison is exact if and only if nothing it compares repeats.

Addresses (`ServiceAddresses`, `AddressSources`, `ServiceStatus`, `PublishedStatus`,
`IPPools`, `Idempotence`, `Conservation`, `ServiceSync`). A sync of a service that was just synced does
nothing at all, exactly under three conditions that can be read off the first
sync. A service without address causes at most one allocation, and a rollback
returns exactly it, if the pool recognises it; so does the deletion of the service,
if nobody else has the address on one of its further ports.

Text and arithmetic (`Hostnames`, `IPGenerator`, `IPRanges`). Generated ingress
names read back as the identical address exactly when the zone has no dash, or
what precedes its first dash is that address. Under every interleaving of threads the generator hands out
consecutive tickets, and any block-sized window of them is a permutation of the
block. Range membership is right about every IPv4 address only for a range that
is a tail of the address space or lies in its last /24; for a range in one /24,
`RightIff` says about which addresses it is right.

Others (`BgpMesh`, `HttpRoutes`). A settled BGP speaker peers with another if and
only if no purge of the other was handled since both were settled; without
departures that is the full mesh section 1 of RFC 4456 asks of the speakers of one
AS. Translating an HTTPRoute preserves which services every request may reach
exactly when no host the Ingress lists is a wildcard, some host is listed, a listener's host
is one the route covers, and no rule without matches loses a backend (or when there
is no backend, or nothing reaches the route and nothing is offered). Hosts are read
on their text: a Gateway API wildcard stands for one or more labels, an Ingress one
for exactly one.

Things found false of the code, each with the exact condition under which it
holds and inputs (`Witnesses`) that break it: the round trip for zones with a
dash (`RoundTripIff`), the endpoint check with repeats (`ExactIffDistinct`), a
second sync being idle (`SecondSyncIff`, `WideProbePort`, `MixedAddresses`,
`PodAgainstSlices`), the rollback of a reserved address another service holds
(`ExistingRollbackIff`, `RollbackFreesAnothers`), the rollback of an address its
own range refuses (`FreshRollbackIff`, `FreshRollbackLeaks`), range membership
(`RightEverywhereIff`, `RightIff`), a rule whose port was removed (`UpdateStraysIff`, `DroppedPort`),
the rules of an instance that comes back (`ReplayStraysIff`, `RejoinedInstance`),
discovery coming to an end (`Discover`, `LostListing`), an updated resource keeping
its URLs (`AddServesIff`, `KeptUrlIsDropped`), a deletion giving back only what was
taken (`FreshThenDeletedIff`, `DeletionFreesAnothers`), the mesh of settled speakers
(`SettledPeerIff`, `LatePurgeBreaksMesh`),
routing through a generated Ingress (`RoutingIsPreservedIff`, `WildcardNarrows`,
`WildListener`, `HostlessRouteIsLost`, `ListenerHostWidens`, `MatchlessRuleIsLost`), and
convergence in one pass (`OnePassSufficesIff`, `OnePassMayNotSuffice`). With one
instance and rebalancing on, a live master gives way to an earlier client that
can serve (`IdleIff`).

## Reading the model

A function named like a Go function specifies it; a class method of the same
name is its imperative form, proved to compute that function. Answers of
the Kubernetes API, the loxilb REST API and loxilib's allocator are parameters:
listers give lists, `Oracle` says whether a call to a client about a rule
succeeds, `free` and `give` are the allocator's answers. Go map iteration is
any order.

## Model

| member | source | states |
|---|---|---|
| Names.ZoneInstNameInjective | pkg/api/client.go:57-60 | no two (zone, id) pairs share an instance name, whatever the zone text |
| Names.InstNameReads | pkg/api/client.go:57-60 | an instance name is the zone, "-inst" and the number in decimal digits |
| Clients.InstNamesCount | pkg/api/client.go:117-122 | a client of a zone with n instances gets n distinct role entries |
| RoleManager.LoxiClient.constructor | pkg/api/client.go:63-131 | a new client is not alive, has every instance of its zone and is master of none; an empty name becomes the host |
| RoleManager.LoxiClient.CountMaster | pkg/agent/manager/loadbalancer/loadbalancer.go:2281-2286 | counts the instances a client is master of |
| RoleManager.LoxiClient.ClearMaster | pkg/agent/manager/loadbalancer/loadbalancer.go:2293-2299 | clears every role of one client and nothing else |
| RoleManager.Manager.DemoteDead | pkg/agent/manager/loadbalancer/loadbalancer.go:2230-2243 | the first loop: demotes dead masters up to the first client without the instance, and reports a re-election or a live master |
| RoleManager.Manager.ElectFrom | pkg/agent/manager/loadbalancer/loadbalancer.go:2246-2268 | the cyclic loop stays in bounds from any hint, ends, and equals electing the first live eligible client in cyclic order |
| RoleManager.Manager.SelectInst | pkg/agent/manager/loadbalancer/loadbalancer.go:2226-2270 | one instance's turn, with liveness free to change between its two loops |
| RoleManager.Manager.ResetIfNeeded | pkg/agent/manager/loadbalancer/loadbalancer.go:2272-2305 | resets all roles exactly when rebalancing is due |
| RoleManager.Manager.SelectRoles | pkg/agent/manager/loadbalancer/loadbalancer.go:2307-2331 | a whole pass over the instances in the given order, hints carried along |
| RoleManager.Manager.Publish | pkg/agent/manager/loadbalancer/loadbalancer.go:2353-2399 | the sweep sends exactly the messages due, each once: one per live client and instance, and one under the default zone's name |
| RoleManager.OneMasterTold | pkg/agent/manager/loadbalancer/loadbalancer.go:2353-2399 | no sweep tells two clients MASTER for one instance name, the default zone's name included |
| ElectionProperties.ScanIsExhaustive | pkg/agent/manager/loadbalancer/loadbalancer.go:2246-2267 | the scan finds an eligible live client if and only if there is one, from every start |
| ElectionProperties.ElectMasters | pkg/agent/manager/loadbalancer/loadbalancer.go:2245-2268 | electing without a master makes exactly one, if and only if someone can serve, and touches no other instance |
| ElectionProperties.SelectMasters | pkg/agent/manager/loadbalancer/loadbalancer.go:2226-2270 | a turn makes exactly the selected client master, or no new master |
| ElectionProperties.NoMasterLeft | pkg/agent/manager/loadbalancer/loadbalancer.go:2230-2245 | when an election is due the demotion loop left no master behind |
| ElectionProperties.SelectKeepsSafe | pkg/agent/manager/loadbalancer/loadbalancer.go:2226-2270 | at most one master per instance and none excluded, for any liveness at any point |
| ElectionProperties.PassKeepsSafe | pkg/agent/manager/loadbalancer/loadbalancer.go:2307-2331 | a whole pass, reset included, keeps that |
| ElectionProperties.QuietSelect | pkg/agent/manager/loadbalancer/loadbalancer.go:2230-2268 | with stable liveness a turn settles its instance and leaves a settled one untouched |
| ElectionProperties.WinnerIsMaster | pkg/agent/manager/loadbalancer/loadbalancer.go:2307-2323 | from no roles, each instance ends with exactly the winner of its own turn |
| ElectionProperties.WinnersMove | pkg/agent/manager/loadbalancer/loadbalancer.go:2312-2319 | the carried hint makes successive winners differ, for any placement of dead or excluded clients |
| ElectionProperties.RebalanceSpreads | pkg/agent/manager/loadbalancer/loadbalancer.go:2292-2323 | with two instances and two eligible clients, a pass from the reset leaves nobody master of all, for any order |
| ElectionProperties.QuietPass | pkg/agent/manager/loadbalancer/loadbalancer.go:2307-2323 | complete: every instance settled, members and liveness kept; sticky: without a reset, settled instances keep their roles |
| ElectionProperties.SettledMeans | pkg/agent/manager/loadbalancer/loadbalancer.go:2230-2268 | a settled instance has exactly one master, and it is live, when anyone can serve |
| ElectionProperties.LiveMasterIsSettled | pkg/agent/manager/loadbalancer/loadbalancer.go:2230-2243 | an instance with a live master is settled, so stickiness covers it |
| ElectionProperties.SettledPassIsIdle | pkg/agent/manager/loadbalancer/loadbalancer.go:2307-2323 | a pass over settled instances with no rebalance due changes nothing |
| ElectionProperties.LoneElectable | pkg/agent/manager/loadbalancer/loadbalancer.go:2292-2323 | with one eligible client, a pass from the reset gives it everything, in any order |
| ElectionProperties.RebalancedIsStable | pkg/agent/manager/loadbalancer/loadbalancer.go:2272-2323 | what a rebalanced pass leaves is a fixed point of every later pass |
| ElectionProperties.ThirdPassIsIdle | pkg/agent/manager/loadbalancer/loadbalancer.go:2226-2331 | the third of any three passes changes nothing |
| ElectionProperties.Converges | pkg/agent/manager/loadbalancer/loadbalancer.go:2226-2331 | any number of passes, each in its own order, equals the first two |
| ElectionProperties.RebalanceMoves | pkg/agent/manager/loadbalancer/loadbalancer.go:2272-2305 | a due rebalance with two eligible clients does change roles |
| ElectionProperties.IdleIff | pkg/agent/manager/loadbalancer/loadbalancer.go:2272-2331 | with every instance settled, a pass changes nothing if and only if no rebalance is due, or there is no instance, or one client that can serve, or one instance whose master is the first client that can |
| ElectionProperties.SecondPassIdleIff | pkg/agent/manager/loadbalancer/loadbalancer.go:2226-2331 | the pass after a pass is idle if and only if that began with the reset, or left no rebalance due, or nothing for it to move |
| PassOutcome.OwnersAreMasters | pkg/agent/manager/loadbalancer/loadbalancer.go:2226-2323 | after a quiet pass each instance has exactly the master read off the clients before it: its live one, or the first that can serve from the carried hint |
| PassOutcome.PassTakesTurns | pkg/agent/manager/loadbalancer/loadbalancer.go:2307-2331 | a quiet pass written out: each instance keeps its live master or goes to the first client that can serve, counted cyclically from the instance's number if nothing or client 0 came before, else from the client after the result before, past the end from 0; a publish is asked for exactly when some turn elects |
| PassOutcome.FirstGoesToItsNumber | pkg/agent/manager/loadbalancer/loadbalancer.go:2312-2319 | from no roles, where all can serve, the instance visited first goes to the client of its own number |
| PassOutcome.TurnIs | pkg/agent/manager/loadbalancer/loadbalancer.go:2226-2270 | one turn under any liveness: a master the first loop sees alive stays; otherwise the first client from the hint on that the second loop sees alive and that is not excluded becomes the only master |
| PassOutcome.MissingEntryStops | pkg/agent/manager/loadbalancer/loadbalancer.go:2230-2243 | at the first client without the instance the turn ends with hint 0, having demoted only dead masters before it |
| PassOutcome.RebalanceIff | pkg/agent/manager/loadbalancer/loadbalancer.go:2272-2305 | the reset is due if and only if rebalancing is on, as many clients live as there are instances, and some client is master of all |
| PassOutcome.TooFewLiveIsSticky | pkg/agent/manager/loadbalancer/loadbalancer.go:2292-2305 | with fewer live clients than instances no live master loses its role |
| PassOutcome.RebalanceDueIff | pkg/agent/manager/loadbalancer/loadbalancer.go:2272-2323 | a pass without reset leaves a rebalance due if and only if rebalancing is on, enough clients live and every instance gets the same owner |
| PassOutcome.OnePassSufficesIff | pkg/agent/manager/loadbalancer/loadbalancer.go:2226-2331 | one pass suffices if and only if, of the clients before it: it begins with the reset, or rebalancing is off or lacks live clients, or there is no instance, or fewer than two clients can serve, or the owners differ, or the one instance goes to the first client that can |
| ElectionProperties.OnePassMayNotSuffice | pkg/agent/manager/loadbalancer/loadbalancer.go:2226-2331 | concrete clients for which the second pass is not idle: the second pass still changes roles |
| Discovery.Flag | pkg/agent/manager/loadbalancer/loadbalancer.go:2118-2125 | marks exactly the clients whose host was not discovered |
| Discovery.Join | pkg/agent/manager/loadbalancer/loadbalancer.go:2127-2150 | new clients for exactly the unknown addresses whose creation succeeds, in order, excluded hosts without role |
| Discovery.Compact | pkg/agent/manager/loadbalancer/loadbalancer.go:2155-2164 | the in-place filter keeps unmarked clients in order and reports each marked one once; it blocks if and only if more are marked than the channel has room for, and then the list is half compacted as stated |
| Discovery.Discover | pkg/agent/manager/loadbalancer/loadbalancer.go:2096-2165 | completes if and only if what is queued and what departs fit the channel; then the new list's values, survivors the same objects in order, each departed object purged once; otherwise the half-compacted list |
| Membership.DiscoveryIsExact | pkg/agent/manager/loadbalancer/loadbalancer.go:2118-2164 | hosts stay distinct; listed hosts are exactly the discovered ones known or creatable; survivors come first; survivors and purged make up the old list |
| Membership.JoinedAre | pkg/agent/manager/loadbalancer/loadbalancer.go:2127-2150 | the newcomers are clients for exactly the unknown creatable addresses, in order, at port 11111, not alive, master of nothing, without a role exactly where excluded |
| Membership.LostListing | pkg/agent/manager/loadbalancer/loadbalancer.go:2109-2113 | a failed listing comes to an end if and only if all clients fit what is left of the channel, so never with six |
| LoxiUrls.Handler.Add | pkg/agent/manager/loxiurl/loxiurl.go:259-336 | the new list, the take-over flag and the purged clients of an added resource, early returns included |
| LoxiUrls.Handler.Delete | pkg/agent/manager/loxiurl/loxiurl.go:338-421 | the new list and purged clients of a deleted resource, early returns included |
| LoxiUrls.Handler.TakeOver | pkg/agent/manager/loxiurl/loxiurl.go:222-230 | the first resource drops every configured client, later ones none |
| LoxiUrls.Handler.SplitByName | pkg/agent/manager/loxiurl/loxiurl.go:232-252 | clients of a resource are purged in order, the others kept in order |
| Membership.AddKeepsUrlsDistinct | pkg/agent/manager/loxiurl/loxiurl.go:291-333 | adding a duplicate-free URL list keeps client URLs distinct |
| Membership.AddIsExact | pkg/agent/manager/loxiurl/loxiurl.go:283-333 | past the take-over nothing changes when a URL does not parse or all are known; otherwise other resources' clients stay in order, followed by one named client per new creatable URL in order, and the resource's own are purged in order |
| Membership.AddServesIff | pkg/agent/manager/loxiurl/loxiurl.go:291-333 | after an add every URL of the resource has a client if and only if none is new, or all parse, the new ones are creatable and each other is another resource's too |
| Membership.KeptUrlIsDropped | pkg/agent/manager/loxiurl/loxiurl.go:308-331 | a resource that adds a URL to the one it has loses that one |
| Membership.DeleteIsExact | pkg/agent/manager/loxiurl/loxiurl.go:376-421 | a delete whose URLs all parse and are clients of that name leaves exactly the other creatable clients in order, with their names, an empty one becoming the host; any other changes nothing |
| Membership.UrlsStayDistinct | pkg/agent/manager/loxiurl/loxiurl.go:259-421 | over any run of resource changes, health flips and passes, URLs stay distinct |
| Membership.NamesStay | pkg/agent/manager/loxiurl/loxiurl.go:259-421 | over any run of resource changes, health flips and passes an empty name means an empty host, so a delete keeps every name |
| Membership.NextKeepsGood | pkg/agent/manager/loadbalancer/loadbalancer.go:2096-2331 | each kind of step keeps at most one master, none excluded, and full role entries |
| Membership.RunsAreSafe | pkg/agent/manager/loadbalancer/loadbalancer.go:2096-2331 | the same in every state of every run |
| EndpointChanges.CheckUpdateEndpoints | pkg/agent/manager/loadbalancer/loadbalancer.go:1531-1611 | the nested loops answer whether some cached model differs from the new endpoints |
| EndpointChanges.WantedEndpoints | pkg/agent/manager/loadbalancer/loadbalancer.go:1542-1550 | the loops build every address on every port |
| EndpointChanges.AddressesDiffer | pkg/agent/manager/loadbalancer/loadbalancer.go:1584-1603 | the counting loop with early exit: lengths differ or some new address is not cached |
| EndpointChanges.SocketsDiffer | pkg/agent/manager/loadbalancer/loadbalancer.go:1556-1573 | the same on (address, port) |
| EndpointChanges.CheckIsExact | pkg/agent/manager/loadbalancer/loadbalancer.go:1531-1611 | for duplicate-free endpoints: unchanged if and only if every cached model's endpoints are a permutation of the new ones, of the address and port product in slice mode |
| EndpointChanges.ExactIffDistinct | pkg/agent/manager/loadbalancer/loadbalancer.go:1531-1611 | in either mode the check tells every changed list apart if and only if nothing it compares repeats in the new list |
| EndpointChanges.NoRepeatIff | pkg/agent/manager/loadbalancer/loadbalancer.go:1543-1551 | in slice mode that is: no address repeats and no port does after the cut to 16 bits, or one list is empty |
| EndpointChanges.BuiltDiffersIff | pkg/agent/manager/loadbalancer/loadbalancer.go:1948-1980 | a model looks changed against its own inputs, in any order, exactly when pod ports are checked against different slice ports |
| EndpointChanges.ProductMembers | pkg/agent/manager/loadbalancer/loadbalancer.go:1948-1980 | the endpoints built are exactly the addresses on the ports, cut to 16 bits |
| RuleManager.Manager.DeleteLoadBalancer | pkg/agent/manager/loadbalancer/loadbalancer.go:1208-1273 | fails if and only if a client refuses a rule; each client loses exactly the rules it deleted; if none refuses and the service goes, exactly its in-range addresses that the pool contains are given back, otherwise none; release and drop only when no client holds a rule of it |
| RuleManager.Manager.ReleaseEntry | pkg/agent/manager/loadbalancer/loadbalancer.go:1256-1268 | the pool loses exactly the in-range pairs of the entry that it contains, in any order of pairs |
| RuleManager.Manager.WithdrawEntry | pkg/agent/manager/loadbalancer/loadbalancer.go:1221-1252 | the nested loops, in any order of pairs, remove exactly the acknowledged rules and report whether all were |
| RuleManager.Manager.InstallRule | pkg/agent/manager/loadbalancer/loadbalancer.go:1078-1100 | each client that accepts holds the model; refused only if all refuse |
| RuleManager.Manager.InstallPairs | pkg/agent/manager/loadbalancer/loadbalancer.go:1031-1104 | pairs are installed in order, the entry filled as they are accepted, stopping at the first failure |
| RuleManager.Manager.AddLoadBalancer | pkg/agent/manager/loadbalancer/loadbalancer.go:732-1104 | one sync with its addresses known, all outcomes: rejected, withdrawn, unchanged, updated, failed part-way |
| RuleManager.Manager.RemoveAllCacheEndpoints | pkg/agent/manager/loadbalancer/loadbalancer.go:2217-2224 | the nested loops leave no rule of the service with endpoints, and every key, setting and pool record as it was |
| RuleManager.Manager.Replay | pkg/agent/manager/loadbalancer/loadbalancer.go:2576-2603 | whatever the order, the client ends with some cached rule under every cached key it accepted on top of what it held, other clients untouched; with keys owned by one service each, with exactly those rules |
| RuleAgreement.ReleaseOnlyAfterWithdrawal | pkg/agent/manager/loadbalancer/loadbalancer.go:1221-1272 | what a deletion releases or drops, it does only when no client holds any rule of the service; it fails exactly when some client did not acknowledge some rule, and then releases and drops nothing |
| RuleAgreement.InstallAllTable | pkg/agent/manager/loadbalancer/loadbalancer.go:1030-1104 | whatever single calls fail: each client holds the new model of every cached rule it accepted and keeps every other rule |
| RuleAgreement.TornAgrees | pkg/agent/manager/loadbalancer/loadbalancer.go:1221-1256 | a failed withdrawal costs only that service, and only rules |
| RuleAgreement.TornServesIff | pkg/agent/manager/loadbalancer/loadbalancer.go:1221-1256 | a ready client that acknowledged a withdrawal another one refused still serves the service if and only if the service had no rule with endpoints |
| RuleAgreement.WithdrawnAgrees | pkg/agent/manager/loadbalancer/loadbalancer.go:776-783 | withdrawing and emptying or dropping an entry keeps agreement |
| RuleAgreement.UpdatedAgrees | pkg/agent/manager/loadbalancer/loadbalancer.go:1004-1104 | an update, complete or part-way, keeps agreement and mends a torn service |
| RuleAgreement.AliveAgrees | pkg/agent/manager/loadbalancer/loadbalancer.go:2576-2603 | a replay strays nothing, and a complete one makes ready every client whose rules with endpoints all have cached keys |
| RuleAgreement.ReplayStraysIff | pkg/agent/manager/loadbalancer/loadbalancer.go:2576-2603 | a complete replay to a client that came with any rules leaves no stray one if and only if each with endpoints has a cached key |
| Witnesses.RejoinedInstance | pkg/agent/manager/loadbalancer/loadbalancer.go:2400-2420 | a run in which an instance leaves with its rules, a service is deleted, and the instance comes back: after the complete replay it still holds a rule nobody owns |
| RuleAgreement.PurgeAgrees | pkg/agent/manager/loadbalancer/loadbalancer.go:2155-2164 | agreement survives a client leaving the list |
| RuleAgreement.RunsAgree | pkg/agent/manager/loadbalancer/loadbalancer.go:776-1104 | in every state of every run of syncs, deletions, crashes, joins with any rules, purges and replays, whatever calls fail: clean clients hold only cached rules, ready ones serve every service not torn, and hold exactly the cached rules with endpoints when none is torn |
| RuleAgreement.DroppedRuleStays | pkg/agent/manager/loadbalancer/loadbalancer.go:1004-1028 | without the withdrawal a rule that left the cache stays on every client that holds it and is nobody's |
| RuleAgreement.UpdateStraysIff | pkg/agent/manager/loadbalancer/loadbalancer.go:1004-1104 | on a client that agreed, an update that does not withdraw leaves no stray rule if and only if every rule with endpoints is among the pairs before the first that cannot be built or that every client refuses |
| RuleAgreement.InstallAllPairs | pkg/agent/manager/loadbalancer/loadbalancer.go:1021-1104 | an install caches exactly those pairs, and fails if and only if there are others |
| Forwarding.UpdatedForwards | pkg/agent/manager/loadbalancer/loadbalancer.go:1936-2039 | after an update each client that accepted a pair's rule forwards to every endpoint address, in order, on the node port, the resolved pod port or each slice port by mode, cut to 16 bits, with weight 1, the settings of now and the entry's instance; the cache says the same |
| Forwarding.OldRuleGoesIff | pkg/agent/manager/loadbalancer/loadbalancer.go:995-1022 | a rule the service has no more is gone from a client every call reaches if and only if the settings changed |
| Forwarding.UnchangedIff | pkg/agent/manager/loadbalancer/loadbalancer.go:825-1002 | for lists without repeats a sync does nothing if and only if there are clients and endpoints, and the entry has a rule per pair, the very settings, the endpoints in some order, and nothing to publish |
| Forwarding.OutcomeIff | pkg/agent/manager/loadbalancer/loadbalancer.go:776-1104 | exactly when a sync is rejected, withdraws, fails to withdraw, or fails to install |
| Conservation.FreshThenDeletedIff | pkg/agent/manager/loadbalancer/loadbalancer.go:1244-1273 | a first sync on a new address, then the deletion: the pool holds what it held before if and only if it recognises the address and nobody held it under the identifier of a further port |
| Conservation.UnsharedIsConserved | pkg/agent/manager/loadbalancer/loadbalancer.go:1244-1273 | in a pool that is not shared, if and only if it recognises the address |
| Witnesses.DeletionFreesAnothers | pkg/agent/manager/loadbalancer/loadbalancer.go:1818-1866 | in a shared pool, deleting a two-port service frees the address another service has on its second port |
| Witnesses.DroppedPort | pkg/agent/manager/loadbalancer/loadbalancer.go:995-1104 | two syncs from an empty cache that reach it: a port is dropped while an endpoint moves, and the client keeps the rule |
| ServiceStatus.GetServiceIngressIPs | pkg/agent/manager/loadbalancer/loadbalancer.go:1667-1701 | the addresses read from a status, unreadable entries skipped, every entry 0.0.0.0 for a zero block |
| ServiceAddresses.IngressIPs | pkg/agent/manager/loadbalancer/loadbalancer.go:1667-1701 | an address is read if and only if some entry gives it |
| AddressSources.OwnAddressIff | pkg/agent/manager/loadbalancer/loadbalancer.go:1703-1751 | an address is the service's if and only if a status entry gives it, the spec lists it, or it is the annotation's text and parses |
| AddressSources.AddressOrder | pkg/agent/manager/loadbalancer/loadbalancer.go:1739-1751 | they come from status, spec, annotation, in that order, each status entry that gives one once and in its order |
| AddressSources.WantsInOrder | pkg/agent/manager/loadbalancer/loadbalancer.go:1753-1770 | each address on each port, addresses outermost |
| AddressSources.AnnotationIsUsed | pkg/agent/manager/loadbalancer/loadbalancer.go:1772-1816 | a service with a valid static address never takes a new one: it gets that address on every port, marked static |
| ServiceStatus.GetLBIngressSvcPairs | pkg/agent/manager/loadbalancer/loadbalancer.go:1739-1770 | status, spec and annotation addresses, each on each port, in order |
| ServiceStatus.CheckServiceIngressIPExists | pkg/agent/manager/loadbalancer/loadbalancer.go:1613-1628 | whether a name is in the status as address or hostname |
| ServiceStatus.CheckUpdateExternalIP | pkg/agent/manager/loadbalancer/loadbalancer.go:1515-1529 | whether some name of some pair is missing from the status |
| ServiceStatus.UpdateService | pkg/agent/manager/loadbalancer/loadbalancer.go:1119-1155 | each missing name of each pair is appended once, as address when it parses as one |
| ServiceAddresses.ExistingPairs | pkg/agent/manager/loadbalancer/loadbalancer.go:1784-1815 | one pair per wanted (address, port) in order; no pool call if and only if all are cached |
| AddressSources.BroughtPairs | pkg/agent/manager/loadbalancer/loadbalancer.go:1784-1816 | the records of each pair: a cached one keeps its own; of the others the first the pool has in range is this sync's own, under its port's identifier if the shared pool grants it; later ones are static only |
| IPPools.ReserveExisting | pkg/agent/manager/loadbalancer/loadbalancer.go:1787-1815 | the reserving loop, with the pool's new contents and calls |
| IPPools.TakeFresh | pkg/agent/manager/loadbalancer/loadbalancer.go:1818-1866 | one pair per port in order; one allocation if and only if some port is uncached; uncached ports share it, the first owning it |
| IPPools.GetIngressSvcPairs | pkg/agent/manager/loadbalancer/loadbalancer.go:1772-1867 | which of the two ways is taken, what it may return and what it took from the pool |
| IPPools.IPPool.GetNewIPAddr | pkg/ippool/ippool.go:85-113 | the address granted, under the port's identifier or, in a shared pool, without one |
| IPPools.IPPool.CheckAndReserveIP | pkg/ippool/ippool.go:131-208 | an address of the pool is in range whether or not it was granted; a pool that is not shared reports a refused reservation as made; held only if granted |
| IPPools.IPPool.ReturnIPAddr | pkg/ippool/ippool.go:116-128 | gives back exactly one (address, identifier), if the pool contains it |
| IPPools.RollBack | pkg/agent/manager/loadbalancer/loadbalancer.go:797-809 | gives back exactly the in-range pairs this sync allocated |
| IPPools.FreshRollbackIff | pkg/agent/manager/loadbalancer/loadbalancer.go:797-809 | after the fresh way at most the one address taken is given back, and the pool is as before if and only if nothing was taken or the pool recognises the address |
| Witnesses.FreshRollbackLeaks | pkg/ippool/ippool.go:116-191 | 10.0.0.200 handed out of the range 10.0.0.5-10.0.1.10 is not given back |
| Witnesses.RangeRefusesOwn | pkg/ippool/ippool.go:153-191 | that address lies in that range, and the range check refuses it |
| IPPools.ExistingRollbackIff | pkg/agent/manager/loadbalancer/loadbalancer.go:797-809 | after the existing way the pool is as before if and only if the first uncached address in the pool was not already held both under its identifier and under none, which in an unshared pool are the same |
| IPPools.RollbackFreesAnothers | pkg/ippool/ippool.go:131-150 | any address of an unshared pool held by another service shows it: the rollback frees it |
| ServiceSync.SyncService | pkg/agent/manager/loadbalancer/loadbalancer.go:721-1117 | a whole sync: lookup, reconcile, then publish on success or roll back on failure; a failed sync of a service without address leaves the pool as it was when the allocator hands out addresses the pool recognises |
| RuleAgreement.WithoutKeepsForm | pkg/agent/manager/loadbalancer/loadbalancer.go:2217-2224 | emptying rules keeps every key, setting and pool record |
| Idempotence.UpdatedEntry | pkg/agent/manager/loadbalancer/loadbalancer.go:1007-1104 | an update caches exactly one rule per pair, with the settings and endpoints of now, and a rule that stays cached keeps its pool records |
| PublishedStatus.PublishedAll | pkg/agent/manager/loadbalancer/loadbalancer.go:1130-1146 | after the status update every name of every pair is in the status |
| PublishedStatus.PublishAdds | pkg/agent/manager/loadbalancer/loadbalancer.go:1130-1146 | the status keeps its entries; each added one says a name of a flagged pair that nothing before it says, as an address if it parses |
| PublishedStatus.StaleIff | pkg/agent/manager/loadbalancer/loadbalancer.go:1515-1529 | the check finds the status stale if and only if the update would change it |
| PublishedStatus.ReadableIff | pkg/agent/manager/common/util_extip.go:30-99 | exactly which addresses read back from the names the status update writes, with and without a zero block and instance addresses |
| PublishedStatus.SameAddresses | pkg/agent/manager/loadbalancer/loadbalancer.go:1667-1701 | if they do, a service's addresses after the status update are exactly those of its pairs |
| Idempotence.RectangularIff | pkg/agent/manager/loadbalancer/loadbalancer.go:1772-1866 | every address is on every port: always for a service with addresses, otherwise if and only if one address serves all ports |
| Idempotence.AddressesKeptIff | pkg/agent/manager/loadbalancer/loadbalancer.go:1784-1816 | if they do, the second sync finds all its addresses cached if and only if every address is on every port |
| Idempotence.SecondAsks | pkg/agent/manager/loadbalancer/loadbalancer.go:1784-1866 | the second sync calls the pool if and only if some address it reads is not cached on some port |
| Idempotence.SecondSyncIff | pkg/agent/manager/loadbalancer/loadbalancer.go:825-1002 | a second sync, lists in any order, makes no pool, create or delete call and keeps the cache, exactly when the probe port fits 16 bits, every address it reads is cached on every port, and models are checked against the ports they were built from |
| Idempotence.SyncKeepsFlagged | pkg/agent/manager/loadbalancer/loadbalancer.go:1007-1104 | every sync, whatever its outcome, and every deletion keeps each cached pair in range or static, as the theorem asks of the first sync's cache |
| Witnesses.FirstSyncUpdates | pkg/agent/manager/loadbalancer/loadbalancer.go:732-774 | the first sync of a one-port service with any ordinary address of its own, on any target that resolves, is such a first sync and keeps its addresses |
| Witnesses.WideProbePort | pkg/agent/manager/loadbalancer/loadbalancer.go:889-898 | with a probe port of 65536 the first condition fails |
| Witnesses.MixedAddresses | pkg/agent/manager/loadbalancer/loadbalancer.go:1818-1866 | a service that lost its status and gained a port mixes two addresses, and the second condition fails |
| Witnesses.PodAgainstSlices | pkg/agent/manager/loadbalancer/loadbalancer.go:1953-1965 | pod ports checked against other slice ports, and the third fails |
| ExtIPName.GenExtIPName | pkg/agent/manager/common/util_extip.go:30-60 | one name for an ordinary address; the instance addresses, or a stand-in name, for an unspecified one |
| ExtIPName.NameIs | pkg/agent/manager/common/util_extip.go:30-60 | the name of an address is the zone and a dash, if there is a zone, then the text, with dashes for the colons of IPv6 |
| ExtIPName.ParseIs | pkg/agent/manager/common/util_extip.go:64-99 | what any host name reads as: the stand-in is 0.0.0.0; otherwise, after dropping a dash-free zone in front, what precedes the first dash if it is an address, else the whole with colons for dashes if that is, else nothing |
| IPText.V4Iff | pkg/agent/manager/common/util_extip.go:38-50 | a text reads as IPv4, the way Go's parser does, if and only if it is four octets in decimal without leading zeros, with dots between |
| ExtIPName.RoundTripIff | pkg/agent/manager/common/util_extip.go:30-99 | for every literal, the name reads back as the identical text if and only if the zone has no dash or starts with that very address |
| ExtIPName.NamesAreInjective | pkg/agent/manager/common/util_extip.go:30-60 | names for one dash-free zone never collide |
| ExtIPName.UnspecifiedNames | pkg/agent/manager/common/util_extip.go:64-99 | the stand-in name reads back as 0.0.0.0, an instance address as itself |
| ExtIPName.AnyIPIsUnspecified | pkg/agent/manager/common/util_extip.go:38-50 | 0.0.0.0 takes the stand-in branch, completing its round trip |
| IPGenerator.MaskIsOnes | pkg/ippool/generater.go:43-44 | the mask is as many ones as the block has host bits |
| IPGenerator.AddressValue | pkg/ippool/generater.go:58-65 | the four masked and shifted bytes make network address plus the ticket's remainder |
| IPGenerator.BroadcastValue | pkg/ippool/generater.go:68-75 | the broadcast address is the last of the block |
| IPGenerator.TicketsAreSequential | pkg/ippool/generater.go:52-56 | under every interleaving the n-th successful swap takes n modulo 2^32 |
| IPGenerator.TicketInBlock | pkg/ippool/generater.go:52-75 | every address lies between network and broadcast address |
| IPGenerator.WindowCoversBlock | pkg/ippool/generater.go:52-66 | any block-sized window of tickets has each address exactly once, across the wrap too |
| IPGenerator.RunCoversBlock | pkg/ippool/generater.go:52-66 | the same for the log of any concurrent run |
| IPRanges.DiffIPIndex | pkg/ippool/ippool.go:153-181 | the loop returns the distance of the fourth octet, or all ones if any octet is below |
| IPRanges.Contains | pkg/ippool/ippool.go:183-191 | compares the two distances |
| IPRanges.InRangeIff | pkg/ippool/ippool.go:153-191 | for any two ends and any address, IPv4 or not: everything is accepted when an octet of the last is below the start's, otherwise what is nowhere below the start and not above the last in the fourth octet |
| IPRanges.RightEverywhereIff | pkg/ippool/ippool.go:153-191 | the check agrees with the order of IPv4 addresses everywhere if and only if the range is a tail of the address space or lies in its last /24 |
| IPRanges.RightIff | pkg/ippool/ippool.go:153-191 | for a range in one /24, right about an address if and only if it is in that block, or an octet is below the start's, or its last octet is above the end's |
| BgpMesh.Speakers.HandleAlive | pkg/agent/manager/loadbalancer/loadbalancer.go:2472-2541 | every other member becomes a neighbour, on both sides |
| BgpMesh.Speakers.HandlePurge | pkg/agent/manager/loadbalancer/loadbalancer.go:2400-2420 | every other member of the list as it is then forgets the host whose purge was queued first; the list stays |
| BgpMesh.WellMeshed | pkg/agent/manager/loadbalancer/loadbalancer.go:2400-2541 | over every run nobody peers with itself and only members are settled |
| BgpMesh.SettledPeerIff | pkg/agent/manager/loadbalancer/loadbalancer.go:2400-2541 | over joins, departures, restarts, alive events and purges handled later: a settled member peers with another if and only if no purge of that one was handled since the later of their last handled alive events |
| BgpMesh.PeerIff | pkg/agent/manager/loadbalancer/loadbalancer.go:2400-2541 | any host is configured with another if and only if one came alive while the other was listed and since then it neither restarted nor handled the other's purge while listed |
| BgpMesh.StayersPeer | pkg/agent/manager/loadbalancer/loadbalancer.go:2400-2541 | so every settled member peers with one that never joined again after leaving |
| BgpMesh.LatePurgeBreaksMesh | cmd/loxilb-agent/agent.go:270-291 | the run in which a host leaves, returns, comes alive, and only then its purge is handled: both are settled and one has lost the other |
| BgpMesh.FullMesh | pkg/agent/manager/loadbalancer/loadbalancer.go:2472-2541 | over joins and alive events: symmetric in every state, and exactly the full mesh once all members settled |
| HttpRoutes.CreateIngress | pkg/agent/manager/gatewayapi/httproute.go:304-385 | the nested loops build one rule per route rule and host, with every match and backend |
| HttpRoutes.RuleIsAt | pkg/agent/manager/gatewayapi/httproute.go:327-385 | the rule of each route rule and host is in its place, rules outermost |
| HttpRoutes.PathIsAt | pkg/agent/manager/gatewayapi/httproute.go:330-373 | the path of each match and backend is in its place: value or nothing, exact only if typed so, service name, port or 0 |
| HttpRoutes.IngressOffersIff | pkg/agent/manager/gatewayapi/httproute.go:327-385 | the Ingress offers a request a service if and only if its host is listed, as an Ingress reads hosts, and a rule with matches accepts it and names the service |
| HttpRoutes.RoutingIsPreservedIff | pkg/agent/manager/gatewayapi/httproute.go:304-385 | the Ingress offers what the route does, to every request, if and only if the route has no backend, or both answer the same hosts and each backend of a rule without matches is also sent every path by one with, or no host reaches the route and no rule with matches has a backend |
| HttpRoutes.SameHostsAnswer | pkg/agent/manager/gatewayapi/httproute.go:304-312 | both answer the same hosts when no listed one is a wildcard, some is listed, and a listener's is one the route covers |
| HttpRoutes.HostsDiffer | pkg/agent/manager/gatewayapi/httproute.go:304-312 | and only then: otherwise some host is answered by one side only |
| HttpRoutes.SilentIff | pkg/agent/manager/gatewayapi/httproute.go:304-312 | no host reaches the route if and only if none of its hosts overlaps the listener's |
| HttpRoutes.WildcardNarrows | pkg/agent/manager/gatewayapi/httproute.go:307-311 | a wildcard the route names stands for one label only in the Ingress: two labels reach the route alone |
| HttpRoutes.WildListener | pkg/agent/manager/gatewayapi/httproute.go:304-307 | a listener's wildcard is always read differently on some host |
| HttpRoutes.WildcardExample | pkg/agent/manager/gatewayapi/httproute.go:307-311 | *.example.com and a.b.example.com: the route answers, the Ingress does not |
| HttpRoutes.CoveredListenerExample | pkg/agent/manager/gatewayapi/httproute.go:304-307 | listener www.example.com with route *.example.com: both answer the same hosts |
| HttpRoutes.HostlessRouteIsLost | pkg/agent/manager/gatewayapi/httproute.go:304-312 | with no host named by listener or route the route answers every host and the Ingress has no rule |
| HttpRoutes.ListenerHostWidens | pkg/agent/manager/gatewayapi/httproute.go:304-307 | a route that does not cover its listener's host is offered on it all the same |
| HttpRoutes.MatchlessRuleIsLost | pkg/agent/manager/gatewayapi/httproute.go:327-373 | a backend of a rule without matches is offered by the route and not by the Ingress, unless a rule with matches sends every path there too |

## Left out

- Go data races: a pass, a sync, a replay and an event are each one atomic step. The generator is the exception; its threads interleave at each access to the counter.
- Health-check timing (pkg/api/client.go:169-195): liveness is any sequence of values.
- REST calls, tokens, TLS, logging, options, retries: a call is reduced to whether it succeeded, after retries.
- A delete call that is still under way when deleteLoadBalancer stops reading answers is taken to have completed.
- RuleAgreement.RunsAgree: no two services share a rule key in a run. An instance from under which a rule with endpoints was dropped unwithdrawn, or that joined with one nobody caches, is not claimed to agree until it restarts or a complete replay finds all its rules cached.
- Membership.RunsAreSafe: a discovery that blocks on the purge channel is not a step of a run; Discovery.Discover states the list it leaves.
- Local-preference and append-endpoints modes, which change what each instance is sent.
- Sends of the LoxiURL handler on the purge channel are taken to return: another goroutine reads it.
- RuleManager.Manager.DeleteLoadBalancer: secondary addresses and their pools are not modelled; only the primary pool's release is.
- RuleManager.Manager.ReleaseEntry: the secondary pools' part of the release is not modelled.
- RuleManager.Manager.AddLoadBalancer: takes the addresses as given, secondary addresses not modelled; the lookup and the rollback are in ServiceSync.SyncService.
- ServiceSync.SyncService: secondary addresses, private addresses, mTLS, source ranges, egress and metadata objects are not modelled; an exhausted pool ends the process in the source.
- IPPools.RollBack: the secondary pools' part of the rollback is not modelled.
- RuleAgreement.ReleaseOnlyAfterWithdrawal: secondary addresses are not modelled.
- Idempotence.SecondSyncIff: ports of a service differ in number or protocol, no address or instance address is the empty text, and the instance addresses are the same in both syncs.
- EndpointChanges.BuiltDiffersIff: the ports of endpoint slices come in one order within a sync, while the Go code may list them in another order for each address.
- ServiceStatus.GetServiceIngressIPs: whether a service's pool is a zero block is an input.
- IPPools.IPPool.GetNewIPAddr: the allocator inside loxilib is seen only as a set of (address, identifier) and its answers. No uniqueness across services is claimed, since of a multi-port service only the first port's identifier is registered.
- The status rewrite of all zero-block services when an instance address changes (updateAllLoxiLBServiceStatus).
- IPGenerator.AddressValue: IPv4 blocks; for IPv6 the Go code indexes the first four octets only.
- IPRanges.RightIff: address by address only for a range in one /24; RightEverywhereIff covers all IPv4 ranges. CIDR membership is Go's own.
- Subnet membership of the generator (CheckIPAddressInSubnet), which is Go's own.
- GenSPKey's text form of a rule key: keys are compared field by field.
- Peer-only clients, external BGP peers and BGP policies; BGP calls that fail.
- HttpRoutes.RoutingIsPreservedIff: hosts are not empty and path values start with a slash, as both APIs ask; matches are path-only, with a value and type Exact or PathPrefix; header, query and method matches and regular expressions, which the Ingress cannot express, are not covered. HTTPRoute annotations, TLS secrets and cross-namespace backends, and TCP and UDP routes, are not modelled.
- Which annotations yield which settings, and how endpoint addresses are listed: both are inputs.
- Pools changed by LoxiURL resources (types cidrpool and hostcidr).
