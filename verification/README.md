# Cyberia VPN: a verified model

This project models the parts of Cyberia VPN whose correctness depends on what
happens when things fail: the client's connection with its kill switch, the
control plane's durable state, the messages that are signed, the node's peer and
route tables, and route selection. Each is stated in Dafny together with the
properties it is there to keep, for every input, every run and every failure of
the environment. `dafny verify dfyconfig.toml` checks the whole project.

## Layout

| files | subject |
|---|---|
| `Host`, `Tunnel`, `Adapter`, `Nftables`, `Controller`, `Connection`, `ConnectionRuns`, `DeadEnds` | the fail-secure connection, from single commands to whole runs |
| `Snapshots`, `ClientStates`, `PublishedConfigs`, `PublishedRuns`, `Enrollment`, `EnrollmentFiles`, `EnrollmentRuns`, `Listings` | durable state through failed writes, poisoned handles, crashes and reopenings |
| `Messages`, `Configurations` | canonical signed messages, sealing and opening |
| `Prefixes`, `Transport`, `Gateways`, `Base64` | prefix arithmetic, validation, key printing |
| `PeerTables`, `Nodes`, `ManagedNodes` | peer and route ownership, forwarding order |
| `Scoring`, `Selection`, `Circuits`, `Selector`, `SelectorRuns`, `Backoff` | scores, selection, hysteresis, circuit breakers, retry delays |
| `Results`, `Integers`, `Sets` | shared result types, fixed-width integers, set sizes and distinctness |

## Assumptions

- A command that fails has no effect, and a firewall transaction is all or
  nothing. Any command, deadline check or write may fail at any time.
- Adding a link or a policy rule fails when it exists; deleting one fails when
  it does not. Nobody else changes the host meanwhile, and the connection's own
  interface has no resolver overrides before it is built.
- A crash leaves the durable content of a file or any content renamed since the
  last directory sync. Encoding to JSON and back is the identity. One lock holder
  writes a file.
- What packets see is stated for a host that started without the owned nftables
  table.
- The text of an address or prefix determines it and is shorter than 2^32 bytes.
  Signatures are ideal where that is said; SHA-256 is a function with 32-byte
  results; nonces are arbitrary.
- Reading the kernel's forwarding settings for all address families of a policy is
  one step, which fails if any of them is off.
- In `wg set … allowed-ips`, the kernel moves a route from its previous peer.
- The selector's clock does not run backwards where a theorem says so.

## What the proofs turned up

- Filtering can become impossible to lift, in three ways: a failed rollback left
  a link or rule behind, whose ledger is dropped; the link or a planned rule was
  there before, so that connecting fails with the transport marked active even
  though the host is untouched; or the resolvers were reverted before the tunnel
  could be taken down. Together these are `Dead`. A dead connection refuses every
  later call (`ConnectionRuns.Run`), any other can be torn down once nothing
  fails (`DeadEnds.Lift`), and `DeadEnds` holds a run into each.
- For the same reason the client's driver ends with filtering on after a connect
  that failed in the transport, even without always-on.
- Rendered rules mean the policy exactly when the owned table holds no other
  chain that drops by default: the table is flushed, not recreated, so a
  leftover chain keeps its policy.
- A challenge that expires at the zero time is acknowledged but makes the
  snapshot impossible to restore. Only a clock exactly one time-to-live before
  the zero time produces it.
- More than 10000 published envelopes are written and acknowledged, and then the
  store cannot be opened (`PublishedRuns.Overfill`).
- After a publication whose directory sync failed, readers who reopen the store
  may see a version that a later crash takes back; without one, no crash takes
  anything back (`PublishedRuns.Run`). Durable versions never go down.
- With repeated candidate IDs the route selector can return an unavailable node,
  because it looks the chosen ID up again and takes the first match.
- A cooldown that ends beyond the clock's range leaves the circuit closed.
- A managed node whose interface exists without forwarding can neither be started
  nor stopped, and nothing else keeps it from being restarted
  (`ManagedNodes.Restart`). A failed deletion leaves it so after forwarding
  stopped, after it failed to start, or after a failed configuration.

## Model

| member | source | states |
|---|---|---|
| `ConnectionRuns.Run` | core/killswitch/src/linux_connection.rs:106-165 | over any sequence of connect, disconnect and disable with any commands failing: every logged command keeps the promises of `SafeLog`, the recorded policy is the effective one and is what packets see, no filtering means links, rules and resolver overrides are as before the connection, an open tunnel means connected on that interface, overrides imply ownership and a connected tunnel, always-on is never unfiltered, and a dead connection refuses every call, stays dead and stays filtered |
| `ConnectionRuns.Step` | core/killswitch/src/linux_connection.rs:106-165 | one call of such a run: each way of being dead is kept and makes the call fail |
| `DeadEnds.Lift` | core/killswitch/src/lib.rs:234-276 | if nothing fails from now on, disconnecting (after connecting first where an attempt failed) restores the host and, without always-on, lifts filtering, if and only if the connection is not dead; otherwise it stays dead and filtered |
| `DeadEnds.TearDownFinally` | core/killswitch/src/linux_connection.rs:106-147 | the teardown part of it: from any valid state it completes if and only if the connection is not dead |
| `DeadEnds.FreeIsConnectable` | core/transport/src/linux.rs:1107-1138 | a host without the link and the planned rules is exactly one on which the tunnel can be brought up, because a validated plan repeats no rule |
| `DeadEnds.EnterStranded` | core/killswitch/src/lib.rs:200-216 | no command of the environment fails, but the link or a planned rule was there before: after one connect the host is restored and the connection is dead |
| `DeadEnds.EnterStuck` | core/transport/src/linux.rs:1089-1103 | a deadline that passes after the link was added, and a link that cannot be deleted: the link stays and the connection is dead |
| `DeadEnds.EnterHalted` | core/killswitch/src/linux_connection.rs:142-147 | a connected tunnel whose resolvers are reverted while blocking cannot be restored: the tunnel stays and the connection is dead |
| `ConnectionRuns.Renders` | core/killswitch/src/linux.rs:131-162 | in every valid state the effective policy can be rendered |
| `ConnectionRuns.TunnelCommandsRunBlocked` | core/killswitch/src/lib.rs:194-252 | every tunnel command of a safe log was issued while packets could leave only by loopback or to the endpoint, as the accepted rules decide it |
| `ConnectionRuns.RunUntilShutdown` | apps/linux-client/src/lib.rs:371-389 | the driver: success restores the host and leaves blocking or no filtering as always-on says; a connect that failed in the transport before the tunnel was to be opened ends with filtering on, even without always-on and after a clean rollback; without always-on and with the transport inactive the last thing done is lifting the filtering; when the link or a planned rule was there before it ends dead; if nothing else fails, it succeeds exactly from a clean start on a host where the tunnel can come up, and every other ending is filtered |
| `ConnectionRuns.ShutDown` | apps/linux-client/src/lib.rs:381-389 | the part after connecting: success restores the host, a failure leaves filtering on, and it succeeds if nothing fails |
| `ConnectionRuns.WithRunners` | core/killswitch/src/linux_connection.rs:55-97 | a connection exists if and only if its endpoint, timeout, profile, resolvers and names are valid and its blocking policy became effective; its filter is the endpoint's address and port, and its resolvers and transport are those asked for; which error says which; a failed build changes nothing on the host |
| `Connections.LinuxConnection.Connect` | core/killswitch/src/linux_connection.rs:106-135 | success means the tunnel is open, the resolvers asked for are set and owned, and the log grew by exactly the commands and checks of the script; it succeeds whenever no command fails from a clean start on a host where the tunnel can come up; from there a single failure anywhere leaves the host restored and the connection not dead; a failure keeps the invariant, is never an invalid interface name, and marks the transport active if the tunnel was not to be opened; a dead connection always fails |
| `Connections.LinuxConnection.OpenUp` | core/killswitch/src/linux_connection.rs:106-111 | the controller's part of it, with the same promises up to the open tunnel |
| `Connections.LinuxConnection.Resolve` | core/killswitch/src/linux_connection.rs:112-134 | an open tunnel ends with its resolvers set and owned, whenever no command fails; after a single failure the host is restored under blocking |
| `Connections.LinuxConnection.GiveUp` | core/killswitch/src/linux_connection.rs:112-132 | owned resolvers are reverted first, and once they are the next thing done is blocking; if nothing fails the tunnel is gone, the host restored under blocking and the original error reported; filtering stays on in any case |
| `Connections.LinuxConnection.TakeDown` | core/killswitch/src/linux_connection.rs:125-133 | the part after the resolvers: blocking, then the teardown, and which error is reported |
| `Connections.LinuxConnection.Disconnect` | core/killswitch/src/linux_connection.rs:142-147 | success restores links, rules and resolvers; it is refused as not connected if and only if no resolvers are owned, without touching the host; it succeeds if resolvers are owned and no command fails; a failure after the resolvers are reverted is a dead end |
| `Connections.LinuxConnection.Disable` | core/killswitch/src/linux_connection.rs:163-165 | filtering is lifted if and only if the transport is inactive, always-on is off and the firewall accepts, and then on a restored host; a refusal keeps the effective policy |
| `Connections.LinuxConnection.DisabledIsRestored` | core/killswitch/src/lib.rs:254-276 | in every valid state, no filtering (or a transport believed inactive) implies that nothing this connection created remains |
| `Connections.ControlledIsSafe` | core/killswitch/src/linux_connection.rs:106-147 | what the controller logs keeps the connection's promises whenever no override is left on the link |
| `Connections.ResolvingIsSafe` | core/transport/src/linux.rs:467-521 | resolver commands issued while the tunnel is open keep the connection's promises |
| `Connections.DnsBackend.Configure` | core/transport/src/linux.rs:467-501 | an interface that is not owned afterwards has no override, through failed setup and failed cleanup; success sets the resolvers asked for, the routing domain and the default route by exactly those commands; after a single failure nothing is owned; other links are untouched |
| `Connections.DnsBackend.Revert` | core/transport/src/linux.rs:514-521 | success leaves no override on the link; failure keeps ownership for a retry; a foreign link is refused |
| `Controllers.ConnectionController.Connect` | core/killswitch/src/lib.rs:200-232 | tunnel commands only under full blocking; success opens the tunnel from a clean start by exactly the commands of the script, and follows whenever no command fails there and the tunnel can come up; from there a single failure leaves nothing of the tunnel; failure leaves blocking (or, if the firewall refused, the old policy) and, in the transport, leaves it marked active; a second connect only drops to blocking and keeps the tunnel; a stranded or leaked transport can never be connected over |
| `Controllers.ConnectionController.OpenTunnel` | core/killswitch/src/lib.rs:217-231 | the tunnel is opened on the interface that came up if and only if its name is valid and the firewall accepts; otherwise it is taken down again under blocking, completely so if only that failed |
| `Controllers.ConnectionController.Release` | core/killswitch/src/lib.rs:217-231 | the teardown itself under blocking: complete on success, marked active on failure, with the deletions in order |
| `Controllers.ConnectionController.Disconnect` | core/killswitch/src/lib.rs:240-252 | blocking is the first thing done and effective before teardown; success means nothing is left, and follows while connected if no command fails; failure keeps blocking and the connection for a retry, and says whether firewall or transport failed |
| `Controllers.DisconnectAgain` | core/killswitch/src/lib.rs:234-252 | any number of disconnects, with the firewall or the teardown failing in between: the completed deletions concatenate to the ledger reversed, each rule once, then the link, and success is clean and blocking |
| `Controllers.ConnectionController.Arm` | core/killswitch/src/lib.rs:205-212 | blocking is effective before the transport is touched |
| `Controllers.ConnectionController.Block` | core/killswitch/src/lib.rs:241-246 | filtering that is on becomes blocking again, or nothing changes |
| `Controllers.ConnectionController.Disable` | core/killswitch/src/lib.rs:260-276 | lifts filtering if and only if teardown is complete, always-on is off and the firewall accepts; every error leaves the policy unchanged |
| `Controllers.ConnectionController.Apply` | core/killswitch/src/linux.rs:51-56 | a policy becomes effective as a whole, or not at all exactly when it cannot be rendered or the firewall refuses |
| `Adapters.WireGuardAdapter.Connect` | core/transport/src/wireguard.rs:399-422 | connected exactly after success, which issues exactly the commands of the script; success is possible only from a clean kernel without the link and the planned rules, and follows there if no command fails; a single failure there leaves nothing behind; a leaked link or rule prefix makes every later attempt fail |
| `Adapters.WireGuardAdapter.Raise` | core/transport/src/wireguard.rs:414-416 | the bring-up itself: exactly which commands success issues, that it follows from a clean start when they succeed, that a single failure leaves nothing, and what an interruption leaves |
| `Adapters.WireGuardAdapter.Disconnect` | core/transport/src/wireguard.rs:424-431 | success leaves nothing in the kernel; failure stays connected for a retry |
| `Adapters.WireGuardAdapter.CleanMeansForeignOnly` | core/transport/src/linux.rs:1089-1152 | being clean is the same as the kernel's links and rules being exactly the foreign ones |
| `Adapters.TearDown` | core/transport/src/linux.rs:1140-1152 | across any number of failed and retried teardowns the completed deletions concatenate to the ledger reversed, each rule once, followed by the link |
| `Adapters.Session` | core/transport/src/linux.rs:1107-1152 | bring-up and retried teardown: the completed deletions are the inverse of the completed additions in reverse, and links and rules are back to what they were |
| `Adapters.UndoSession` | core/transport/src/linux.rs:1081-1152 | the inverse of adding a link and rules is deleting the rules last first and then the link |
| `Adapters.ProgressResumes` | core/transport/src/linux.rs:1081-1087 | a later teardown attempt resumes exactly where an earlier one stopped |
| `Adapters.ValidPlan` | core/transport/src/wireguard.rs:194-219 | a validated profile installs at most four policy rules, all different |
| `Adapters.PlanIsDistinct` | core/transport/src/linux.rs:977-1049 | two rules for each family with a default prefix, none repeated |
| `Adapters.DefaultIsUnique` | core/transport/src/wireguard.rs:270-297 | a family has only one valid prefix of length zero |
| `Tunnels.LinuxBackend.BringUp` | core/transport/src/linux.rs:1107-1138 | success puts exactly the planned rules and the link into the kernel and the ledger by exactly the commands of the script, and follows whenever no command fails and neither existed; failure leaves an empty ledger and leaks only a prefix of the plan and perhaps the link, and nothing after a single failure; foreign entries are never deleted |
| `Tunnels.LinuxBackend.AddLink` | core/transport/src/linux.rs:1116-1127 | the link is added exactly when the check and the command succeed and it did not exist |
| `Tunnels.SetUpScriptMeaning` | core/transport/src/linux.rs:919-1049 | the script sets the key with mark and peer, adds every address, raises the link with its MTU, routes every prefix of its own address family (a default one in the table of the mark, with its two rules) and does nothing else |
| `Tunnels.LinuxBackend.Establish` | core/transport/src/linux.rs:1128-1137 | the part after the link exists: the whole plan in kernel and ledger, or a recorded leak |
| `Tunnels.LinuxBackend.BringDown` | core/transport/src/linux.rs:1140-1152 | deletes a suffix of the ledger last first, then the link; what is left stays in the ledger, which keeps matching the kernel |
| `Tunnels.LinuxBackend.ClearLedger` | core/transport/src/linux.rs:1144-1148 | the ledger afterwards is the part whose rules could not be removed, and is empty exactly on success |
| `Tunnels.LinuxBackend.SetUp` | core/transport/src/linux.rs:1128-1136 | after the link exists, setup either completes the plan by exactly the commands of the script or rolls back to a prefix of it; after a single failure nothing is left, not even the link |
| `Tunnels.LinuxBackend.Provide` | core/transport/src/linux.rs:1129-1134 | configuration and routing: the whole script, or the rules installed before the command that failed |
| `Tunnels.LinuxBackend.Configure` | core/transport/src/linux.rs:919-975 | key, every address and link state by exactly the commands of the script, changing neither links nor rules wherever they fail |
| `Tunnels.LinuxBackend.Checked` | core/transport/src/linux.rs:940-975 | one checked command passes exactly when its check and the command do, and is what the log grew by |
| `Tunnels.LinuxBackend.InstallRoutes` | core/transport/src/linux.rs:977-1049 | on success the whole plan is installed and every prefix routed by exactly the commands of the script, on failure a prefix of the plan, and the returned ledger says which |
| `Tunnels.LinuxBackend.InstallRoute` | core/transport/src/linux.rs:984-1047 | one prefix: its route, in the main table or in the table of the mark when it is a default one, and its planned rules in order or a prefix of them |
| `Tunnels.LinuxBackend.InstallNext` | core/transport/src/linux.rs:984-1047 | the next prefix of several continues the plan, and fails only by a command that failed when the plan can be installed |
| `Tunnels.LinuxBackend.RemovePolicyRules` | core/transport/src/linux.rs:1081-1087 | pops rules from the end until one cannot be deleted; the ledger left is what the kernel still holds |
| `Tunnels.LinuxBackend.RollbackSetup` | core/transport/src/linux.rs:1089-1103 | removes rules and, whatever became of them, tries the link last, which is gone exactly if that succeeded; the original error survives only a complete cleanup |
| `Tunnels.OwnsRulesMeaning` | core/transport/src/linux.rs:845-852 | the ledger's stack discipline is the same as: distinct rules, none foreign, and together with the foreign ones all of the kernel's |
| `Nftables.Render` | core/killswitch/src/linux.rs:131-171 | refuses exactly the tunnel policies with an invalid interface name |
| `Nftables.RenderedMeaning` | core/killswitch/src/linux.rs:131-162 | from any prior ruleset the transaction leaves other tables alone and lets a packet out exactly when the policy allows it and no leftover chain drops it; it is refused exactly when the chain name is taken by a chain off the hook |
| `Nftables.RenderedMeaningExact` | core/killswitch/src/linux.rs:131-162 | the rules mean the policy for all packets if and only if no other chain in the owned table drops by default |
| `Nftables.LeftoverChainBlocks` | core/killswitch/src/linux.rs:131-162 | a leftover chain for which the rendered rules block even loopback |
| `Nftables.RunMeansLastPolicy` | core/killswitch/src/linux.rs:51-56 | after any sequence of policies from a host without the owned table, packets see exactly the last one |
| `Nftables.EffectiveIsEnforced` | core/killswitch/src/linux.rs:51-56 | on a host that started without the owned table, packets see exactly the effective policy |
| `Nftables.LinkNameRenders` | core/transport/src/wireguard.rs:445-451 | every interface name the transport accepts is accepted by the firewall |
| `Prefixes.OverlapExact` | core/transport/src/wireguard.rs:299-313 | the overlap test holds if and only if some address lies in both prefixes |
| `Prefixes.MatchExact` | core/transport/src/wireguard.rs:315-331 | an address matches a network if and only if it lies in it and has its length |
| `Prefixes.ValidNetworkIsCanonical` | core/transport/src/wireguard.rs:270-297 | the mask test accepts exactly networks whose host bits are all zero |
| `Prefixes.MaskBits` | core/transport/src/wireguard.rs:276-280 | the shifted mask has exactly the prefix length of leading ones, as in section 3.1 of RFC 4632 |
| `Prefixes.MaskedEqual` | core/transport/src/wireguard.rs:299-331 | equality under a shifted mask is agreement on the leading bits |
| `Gateways.ClientNetworkShifts` | core/transport/src/wireguard.rs:68-86 | no shift on an accepted network reaches the word width |
| `Gateways.ValidatePolicy` | core/transport/src/wireguard.rs:62-89 | accepts exactly one to sixteen canonical networks that are pairwise disjoint as address sets |
| `Gateways.ValidateForNode` | core/transport/src/wireguard.rs:97-113 | accepts exactly valid policies and nodes with equally many networks and addresses, each network holding an address |
| `Gateways.EveryAddressHasItsNetwork` | core/transport/src/wireguard.rs:97-113 | acceptance forces every interface address into exactly one client network, by counting |
| `Gateways.EveryNetworkHasItsAddress` | core/transport/src/wireguard.rs:97-113 | and every network holds exactly one address as its own |
| `Gateways.Pigeonhole` | core/transport/src/wireguard.rs:97-113 | distinct choices among equally many places hit every place |
| `Gateways.ValidateAddresses` | core/transport/src/wireguard.rs:222-250 | the growing-set scan accepts exactly one to sixteen usable, distinct addresses |
| `Gateways.ValidateAllowed` | core/transport/src/wireguard.rs:204-216 | the scan accepts exactly one to sixty-four valid, distinct prefixes |
| `Base64.EncodeKey` | core/transport/src/linux.rs:1256-1277 | the chunk loop prints the base64 text of any byte string |
| `Base64.RoundTrip` | core/transport/src/linux.rs:1256-1277 | a strict decoder reads every byte string back from its printing |
| `Base64.Injective` | core/transport/src/linux.rs:1256-1277 | distinct keys never print alike |
| `Base64.Size` | core/transport/src/linux.rs:1256-1277 | four characters for every three bytes or part of them |
| `Base64.PaddedAtEnd` | core/transport/src/linux.rs:1256-1277 | padding characters are exactly the last ones section 4 of RFC 4648 calls for |
| `Base64.KeyShape` | core/transport/src/linux.rs:1258-1258 | a 32-byte key fills the reserved 44 characters, the last being padding |
| `Base64.AlphabetTable` | core/transport/src/linux.rs:1257-1257 | the arithmetic alphabet is the table |
| `Base64.ShiftsAndMasks` | core/transport/src/linux.rs:1263-1273 | the arithmetic on sextets is what the shifts and masks on bytes compute |
| `Nodes.ValidatePeer` | core/transport/src/wireguard.rs:155-184 | accepts exactly non-zero keys with one to sixteen distinct host routes and a safe keepalive |
| `Nodes.WireGuardNode.Start` | core/transport/src/linux.rs:605-642 | an interface that existed before is never touched, a failed setup leaves the node inactive, no other interface changes, a valid configuration starts on a free name whenever no command fails, by exactly the commands of the script, and a single failure leaves everything as it was |
| `Nodes.WireGuardNode.Create` | core/transport/src/linux.rs:621-641 | the part after validation: active exactly after success, and an interface whose configuration and deletion both failed is left existing but not managed |
| `Nodes.WireGuardNode.Erect` | core/transport/src/linux.rs:621-639 | the interface is there empty or everything is as before, also when the cleanup fails; after a single failure everything is as before |
| `Nodes.WireGuardNode.Configure` | core/transport/src/linux.rs:644-688 | key and port, every address and the link with its MTU by exactly those commands, changing no table |
| `Nodes.WireGuardNode.AddPeer` | core/transport/src/linux.rs:696-742 | succeeds if and only if the node is active, the peer valid, key and routes free, there is room and the command succeeds; then exactly the peer's book entry is added by exactly that command; no route changes owner; each error has its cause; failure changes nothing |
| `Nodes.WireGuardNode.RemovePeer` | core/transport/src/linux.rs:749-773 | succeeds if and only if the node is active, the peer known and the command succeeds; then exactly the peer's routes are released; failure changes nothing |
| `Nodes.WireGuardNode.Stop` | core/transport/src/linux.rs:780-790 | deletes the interface and only then forgets peers and routes, and fails exactly when it is inactive or the deletion does |
| `Nodes.AddThenRemove` | core/transport/src/linux.rs:696-773 | removing a peer just added restores index and kernel tables exactly |
| `PeerTables.SetFree` | core/transport/src/linux.rs:707-741 | a free assignment takes nothing from any peer and keeps the index the exact inverse of the book, within 4096 peers of 1 to 16 routes |
| `PeerTables.RemoveKnown` | core/transport/src/linux.rs:749-773 | removal keeps the inverse and drops exactly the routes of that peer |
| `PeerTables.RemoveUndoesSet` | core/transport/src/linux.rs:696-773 | removing after adding gives back the earlier table |
| `PeerTables.LegalIsKept` | core/transport/src/linux.rs:696-773 | whatever peers were legally added and removed, the route index is the exact inverse of the book, within its bounds |
| `PeerTables.AddedThenRemoved` | core/transport/src/linux.rs:696-773 | over any such history, adding and removing a peer leaves table and book as they were |
| `PeerTables.KeptUnique` | core/transport/src/linux.rs:550-557 | the book determines peers and routes |
| `ManagedNodes.Gateway.Enable` | core/transport/src/linux.rs:180-223 | forwarding starts if and only if policy and interfaces are valid, it is off and no command fails, by exactly the commands of the script; a failure changes nothing |
| `ManagedNodes.Gateway.SwitchOn` | core/transport/src/linux.rs:199-221 | deadline, settings, deadline and one transaction in this order, failing exactly by the one that failed |
| `ManagedNodes.Gateway.Disable` | core/transport/src/linux.rs:230-243 | forwarding stops or stays owned |
| `ManagedNodes.Build` | core/transport/src/linux.rs:305-326 | refuses exactly unsafe or identical interface names |
| `ManagedNodes.ManagedNode.RemovePeer` | core/transport/src/linux.rs:377-382 | succeeds if and only if the node is active, the peer known and the command succeeds, with exactly its routes |
| `ManagedNodes.ManagedNode.Start` | core/transport/src/linux.rs:334-358 | success means a matching policy is forwarded from the node's interface, by exactly the commands of both scripts, and follows on a free name whenever no command fails; failure never leaves forwarding on; a single failure never wedges the node; a wedged node refuses, and failed cleanups of either kind wedge it |
| `ManagedNodes.ManagedNode.StartValid` | core/transport/src/linux.rs:343-357 | the part after validation: a node whose interface is still managed is refused as already connected, and both failed cleanups are followed to the wedged state |
| `ManagedNodes.ManagedNode.Forward` | core/transport/src/linux.rs:344-357 | forwarding starts, or the interface is removed, certainly so if only forwarding failed; if that fails too the node is wedged with the interface up |
| `ManagedNodes.ManagedNode.AddPeer` | core/transport/src/linux.rs:365-370 | succeeds if and only if the node is active, the peer valid, there is room for it and the command succeeds, and no route changes owner |
| `ManagedNodes.ManagedNode.Stop` | core/transport/src/linux.rs:395-403 | forwarding stops before the interface goes; it succeeds if and only if forwarding is on and both commands succeed, is refused as not connected if and only if forwarding is off, and a failed deletion wedges the node |
| `ManagedNodes.Continue` | core/transport/src/linux.rs:334-403 | a wedged node stays wedged over any further calls: its interface stays, nothing is forwarded, every start and stop is refused, and an inactive one refuses every call |
| `ManagedNodes.Step` | core/transport/src/linux.rs:334-403 | one such call |
| `ManagedNodes.Restart` | core/transport/src/linux.rs:334-403 | if nothing fails from now on, a node can be stopped and started again if and only if it is not wedged |
| `ManagedNodes.EnterHalfStopped` | core/transport/src/linux.rs:399-401 | forwarding stops and the interface cannot be deleted: wedged and still active |
| `ManagedNodes.EnterHalfStarted` | core/transport/src/linux.rs:344-353 | forwarding cannot start and the interface cannot be deleted: wedged with a managed interface |
| `ManagedNodes.EnterLeftBehind` | core/transport/src/linux.rs:632-639 | the interface can neither be configured nor deleted: wedged with an interface nobody manages |
| `ManagedNodes.Run` | core/transport/src/linux.rs:291-404 | over any calls and failures: forwarding starts only over an existing interface, no interface is deleted while forwarded from, and no other interface ever changes |
| `Messages.ConfigRoundTrip` | services/control-api/internal/configuration/signature.go:112-148 | decoding a configuration message followed by any bytes gives the configuration and those bytes |
| `Messages.ConfigPrefixFree` | services/control-api/internal/configuration/signature.go:112-148 | no message is the beginning of another, so the encoding is injective |
| `Messages.EnrollmentRoundTrip` | services/control-api/internal/identity/device.go:31-43 | the same for the enrollment message |
| `Messages.EnrollmentPrefixFree` | services/control-api/internal/identity/device.go:31-43 | no enrollment message is the beginning of another |
| `Messages.DomainsSeparate` | services/control-api/internal/configuration/signature.go:112-114 | no configuration message is an enrollment message, whatever follows either |
| `Messages.BuildSigningMessage` | services/control-api/internal/configuration/signature.go:112-138 | the appending code builds the canonical message |
| `Messages.BuildEnrollmentMessage` | services/control-api/internal/identity/device.go:31-43 | the appending loop builds the canonical message |
| `Messages.AppendField` | services/control-api/internal/configuration/signature.go:145-148 | appends a 32-bit length and the bytes |
| `Messages.ReadTime` | services/control-api/internal/configuration/signature.go:140-143 | a signed 64-bit second count and nanoseconds read back, also before 1970 |
| `Configurations.OpenOnlySealed` | services/control-api/internal/configuration/signature.go:99-110 | with an ideal signature, whatever is opened equals a configuration that was sealed under that key |
| `Configurations.SealOpens` | services/control-api/internal/configuration/signature.go:84-110 | a sealed configuration opens to itself from five minutes before it was issued until it expires; earlier it is invalid, later expired |
| `Configurations.ValidIsEncodable` | services/control-api/internal/configuration/config.go:46-143 | validation implies every bound the encoding needs |
| `Configurations.OpenForDevice` | services/control-api/internal/configuration/accept.go:15-27 | an accepted envelope is for this device and strictly newer |
| `Configurations.ValidateExact` | services/control-api/internal/configuration/config.go:47-92 | validation passes exactly for what is proper and in force; what is not proper is invalid, and only what is proper can be expired |
| `Configurations.SealExact` | services/control-api/internal/configuration/signature.go:84-97 | sealing succeeds exactly for a proper configuration in force and a signer that can sign, with each error by its cause |
| `Configurations.OpenExact` | services/control-api/internal/configuration/signature.go:99-110 | opening succeeds exactly when the signature verifies and the configuration is proper and in force at that time, with each error by its cause |
| `Configurations.OpenForDeviceExact` | services/control-api/internal/configuration/accept.go:15-27 | a device accepts exactly what opens, is its own and is newer than what it has, with each error by its cause |
| `Snapshots.File.Write` | services/control-api/internal/snapshot/file.go:115-152 | acknowledged means nothing else can survive a crash; a failure before the rename changes nothing; a failed directory sync adds one more content that can survive and poisons the handle; which of these happens is decided by the operations in order |
| `Snapshots.File.Read` | services/control-api/internal/snapshot/file.go:89-111 | returns the visible content within the limit, or says exactly why not |
| `Snapshots.File.Check` | services/control-api/internal/snapshot/file.go:76-87 | passes exactly while open and not poisoned |
| `Snapshots.Disk.Crash` | services/control-api/internal/snapshot/file.go:113-114 | a crash leaves the durable content or any content renamed since the last directory sync |
| `ClientStates.ClientState.Accept` | services/control-api/internal/configuration/client.go:64-79 | a returned configuration is newer than the recorded version and already durable; an error leaves the version; what opens for the device is returned exactly if the write succeeds, and each refusal names its cause |
| `ClientStates.OpenClientState` | services/control-api/internal/configuration/client.go:28-54 | a usable handle agrees with the visible record; a readable record opens exactly if it is this device's, a missing one exactly if it can be written |
| `ClientStates.Run` | services/control-api/internal/configuration/client.go:28-79 | over any opens, accepts, closes, crashes and write failures the returned versions strictly increase and each is covered by everything a crash could leave |
| `PublishedConfigs.PublishMonotone` | services/control-api/internal/configuration/store.go:33-55 | publishing replaces one device's envelope by a newer one and nothing else |
| `PublishedConfigs.PublishExact` | services/control-api/internal/configuration/store.go:33-55 | publishing succeeds exactly for a complete envelope newer than the device's, changes that entry alone, and each error has its cause |
| `PublishedConfigs.LoadListing` | services/control-api/internal/configuration/file.go:44-72 | a written snapshot reads back as the same map whatever its order, if and only if it holds at most 10000 envelopes |
| `PublishedConfigs.LoadExact` | services/control-api/internal/configuration/file.go:44-58 | any snapshot loads exactly if it has schema 1, at most 10000 envelopes, all complete and in increasing versions for each device; each device then has its latest |
| `PublishedConfigs.OneTooMany` | services/control-api/internal/configuration/file.go:49-51 | a store of 10000 devices that accepts one more and then cannot be loaded from any listing |
| `PublishedRuns.Overfill` | services/control-api/internal/configuration/file.go:25-99 | a run in which nothing fails: 10001 devices under any distinct names are published through the file store and acknowledged, and opening the store again answers malformed |
| `PublishedRuns.OverfillWithLetters` | services/control-api/internal/configuration/file.go:25-99 | such names exist: the same run with devices named by three letters |
| `PublishedConfigs.LoadAll` | services/control-api/internal/configuration/file.go:44-58 | the loading loop computes exactly that |
| `PublishedConfigs.FileStore.Publish` | services/control-api/internal/configuration/file.go:84-99 | success means memory is all that can survive; an uncertain write adds one more content that can; any other failure changes nothing |
| `PublishedConfigs.FileStore.Save` | services/control-api/internal/configuration/file.go:60-72 | what is written lists the candidate, in whatever order |
| `PublishedConfigs.FileStore.Latest` | services/control-api/internal/configuration/file.go:101-108 | a usable handle answers from its map, any other refuses with the reason |
| `PublishedConfigs.OpenFileStore` | services/control-api/internal/configuration/file.go:25-42 | an opened store holds exactly what the visible snapshot lists, and a listing of more than 10000 is answered malformed |
| `PublishedRuns.Run` | services/control-api/internal/configuration/file.go:25-108 | over any opens, publications, closes, crashes and failures: acknowledged publications are in whatever can survive, and a crash can take readers back if and only if some publication ended uncertain since the last acknowledged one or crash |
| `PublishedRuns.DurableNeverOlder` | services/control-api/internal/configuration/file.go:84-99 | over any run no durable version ever goes down |
| `PublishedRuns.TimelineMeaning` | services/control-api/internal/configuration/file.go:84-108 | at every step readers advance, except in a crash after an uncertain publication |
| `PublishedRuns.TakenBackExactly` | services/control-api/internal/snapshot/file.go:144-150 | what can survive is as new as what is visible exactly when no publication is uncertain |
| `PublishedRuns.PaysExposed` | services/control-api/internal/snapshot/file.go:144-150 | an uncertain publication leaves what is durable strictly behind |
| `PublishedRuns.ReaderTakenBack` | services/control-api/internal/snapshot/file.go:144-150 | a run with one failed directory sync in which a reader is given the newer envelope and, after a crash, the older one again |
| `Listings.Collect` | services/control-api/internal/identity/file.go:95-102 | iterating a map in any order lists every entry once |
| `Enrollments.VerifyEnrollment` | services/control-api/internal/identity/device.go:55-77 | accepts exactly well-formed requests with a signature over their own account, device and challenge, tells malformed requests from wrong signatures, and identifies the requester by its own key |
| `Enrollments.EnrolledEffect` | services/control-api/internal/identity/enrollment.go:84-126 | success spends one open challenge bound to exactly this account and device and adds one new device; a rejection removes at most an expired challenge |
| `Enrollments.IssuedExact` | services/control-api/internal/identity/enrollment.go:47-72 | issuing succeeds exactly with valid names, entropy, a fresh digest and room among the challenges that have not expired; each error has its cause; whatever the answer, exactly the unexpired challenges are left, and the new one on success |
| `Enrollments.ConsumedExact` | services/control-api/internal/identity/enrollment.go:84-99 | consuming succeeds exactly on a challenge bound to account and device that has not expired, and removes any bound one |
| `Enrollments.EnrolledExact` | services/control-api/internal/identity/enrollment.go:105-126 | enrolling succeeds exactly with a proof, a new device, room and an unexpired bound challenge, with each error by its cause |
| `Enrollments.IssuedIsUsable` | services/control-api/internal/identity/enrollment.go:47-126 | an issued challenge enrolls the device it was issued for exactly until it expires |
| `Enrollments.SpentIsSpent` | services/control-api/internal/identity/enrollment.go:84-99 | a spent challenge enrolls nobody at any later time |
| `Enrollments.RejectionChangesCount` | services/control-api/internal/identity/file.go:149-156 | a rejected enrollment changed the candidate if and only if the challenge counts differ |
| `Enrollments.EnrollmentStore.PruneExpired` | services/control-api/internal/identity/enrollment.go:53-57 | the deletion loop leaves exactly the open challenges |
| `Enrollments.EnrollmentStore.Issue` | services/control-api/internal/identity/enrollment.go:47-72 | the object follows the issue step |
| `Enrollments.EnrollmentStore.Consume` | services/control-api/internal/identity/enrollment.go:78-99 | the object follows the consume step |
| `Enrollments.EnrollmentStore.Enroll` | services/control-api/internal/identity/enrollment.go:105-126 | the object follows the enroll step |
| `Enrollments.IssuedWellFormed` | services/control-api/internal/identity/enrollment.go:47-72 | issuing keeps the store well formed and within capacity |
| `Enrollments.EnrolledWellFormed` | services/control-api/internal/identity/enrollment.go:105-126 | enrolling keeps the store well formed and within capacity |
| `EnrollmentFiles.Restore` | services/control-api/internal/identity/file.go:63-93 | the two restoring loops compute the restored maps |
| `EnrollmentFiles.RestoredExact` | services/control-api/internal/identity/file.go:63-93 | any snapshot restores exactly with schema 1, within capacity, and with valid entries none of which repeats |
| `EnrollmentFiles.RestoreExact` | services/control-api/internal/identity/file.go:63-112 | a written snapshot of valid devices and challenges restores, in any order, to the same maps if and only if no challenge expires at the zero time and both maps are within the capacity it is opened with, and is otherwise malformed |
| `EnrollmentFiles.IssuedNeverZero` | services/control-api/internal/identity/enrollment.go:69-70 | only issuing exactly one time-to-live before the zero time creates such a challenge |
| `EnrollmentFiles.EnrolledNeverZero` | services/control-api/internal/identity/enrollment.go:84-126 | enrolling creates no challenge that expires at the zero time |
| `EnrollmentFiles.ZeroExpiryIsNotRestored` | services/control-api/internal/identity/file.go:82-85 | a concrete acknowledged store that cannot be opened again |
| `EnrollmentFiles.FileEnrollmentStore.Persist` | services/control-api/internal/identity/file.go:95-112 | the candidate is adopted only once nothing else can survive |
| `EnrollmentFiles.FileEnrollmentStore.Finish` | services/control-api/internal/identity/file.go:137-157 | a candidate worth persisting is persisted before anything is reported, and the answer tells how that ended |
| `EnrollmentFiles.FileEnrollmentStore.Issue` | services/control-api/internal/identity/file.go:126-141 | ends unchanged, visible but not adopted, or adopted and all that can survive; the answer tells which, and only a step that succeeds has an effect; an unusable handle says why, and with room in the file the answer is exactly the step's unless its write fails |
| `EnrollmentFiles.FileEnrollmentStore.Enroll` | services/control-api/internal/identity/file.go:143-158 | the same for enrollment, including the persisted removal of an expired challenge |
| `EnrollmentFiles.FileEnrollmentStore.Device` | services/control-api/internal/identity/file.go:160-167 | a device is shown only to its own account, and nothing by an unusable handle |
| `EnrollmentFiles.OpenFileEnrollmentStore` | services/control-api/internal/identity/file.go:37-61 | an opened store holds exactly what the visible snapshot lists, with the time-to-live and capacity asked for; bad settings are refused exactly outside their bounds, a readable snapshot opens exactly if it restores, and a missing one exactly if it can be written |
| `EnrollmentRuns.AccountedAck` | services/control-api/internal/identity/enrollment.go:105-126 | an acknowledged enrollment keeps every binding used at most as often as it was issued |
| `EnrollmentRuns.OwesSettled` | services/control-api/internal/identity/file.go:95-158 | however a transaction ends, everything that can survive keeps every promise made |
| `EnrollmentRuns.Run` | services/control-api/internal/identity/file.go:37-158 | over any opens, issues, enrollments, closes, crashes and failures: acknowledged enrollments use no binding of a challenge digest to an account and device more often than its issue was acknowledged or became visible in an uncertain write, no device ID is acknowledged twice, acknowledged devices are unchanged in whatever can survive, and unless an issue whose challenge expires at the zero time took effect, everything that can survive opens again to the same store with any capacity it is within |
| `EnrollmentRuns.OwesNext` | services/control-api/internal/identity/file.go:37-158 | whatever one step does, everything that can survive keeps the promises made so far and the one the answer adds, and no device is acknowledged a second time |
| `EnrollmentRuns.IssueOwes` | services/control-api/internal/identity/file.go:126-141 | the same for an issue, which counts exactly when it was acknowledged or became visible |
| `EnrollmentRuns.EnrollOwes` | services/control-api/internal/identity/file.go:143-158 | the same for an enrollment, which counts exactly when it was acknowledged, for a device not acknowledged before |
| `EnrollmentRuns.TakeStep` | services/control-api/internal/identity/file.go:37-158 | every step of the store on its disk ends in one of the effects those lemmas cover |
| `EnrollmentRuns.TimelyReopens` | services/control-api/internal/identity/file.go:63-93 | a surviving snapshot opens to its store with any sufficient capacity unless such a challenge was issued |
| `Scoring.InverseQualityExact` | core/routing/src/lib.rs:159-162 | saturation loses nothing: quality is the exact remainder of ten thousand and zero exactly from the limit on |
| `Scoring.DirectQualityExact` | core/routing/src/lib.rs:164-169 | quality reaches a level exactly when the value does, and is full exactly from the target on |
| `Scoring.WeightedFits` | core/routing/src/lib.rs:103-106 | the weighted sum fits 64 bits |
| `Scoring.ScoreExact` | core/routing/src/lib.rs:84-109 | the conversion never falls back, and a score is a mean between the worst and the best quality |
| `Scoring.ScoreFormula` | core/routing/src/lib.rs:84-109 | the score in one formula of measurements, limits and weights |
| `Scoring.ScoreBounded` | core/routing/src/lib.rs:84-109 | scores exist exactly for valid policies and measurements and lie in 0 to 10000; each error has its cause, and an unavailable node scores zero |
| `Scoring.SingleWeight` | core/routing/src/lib.rs:95-108 | a weight counts for its own measurement against its own limit: carrying all the weight, it alone decides the score |
| `Scoring.ScoreMonotone` | core/routing/src/lib.rs:84-109 | improving any measurements never lowers the score |
| `Selection.SelectNode` | core/routing/src/lib.rs:117-134 | the loop computes the scan |
| `Selection.SelectExact` | core/routing/src/lib.rs:117-175 | each error if and only if its cause; otherwise the available node with the highest score and then the smallest ID |
| `Selection.SelectIgnoresOrder` | core/routing/src/lib.rs:111-134 | every permutation gives the same error or the same ID and score, and with distinct IDs the same node |
| `Selection.BeforeTotal` | core/routing/src/lib.rs:171-175 | the ID order is total and strict |
| `Circuits.RecordedExact` | core/routing/src/selector.rs:103-120 | the map holds the saturated failure count and the deadline of the last counting failure |
| `Circuits.OpenExact` | core/routing/src/selector.rs:103-127 | a circuit is open if and only if the failures since the last success reach max(1, threshold) and the last is within a representable cooldown |
| `Circuits.CooldownBeyondTheClock` | core/routing/src/selector.rs:112-114 | a failure that reaches the threshold and leaves the circuit closed, because the cooldown ends beyond the last instant |
| `Circuits.ClosedAfterCooldown` | core/routing/src/selector.rs:122-127 | a circuit closes by itself after the cooldown |
| `Circuits.OthersDoNotMatter` | core/routing/src/selector.rs:103-120 | outcomes of other nodes change nothing |
| `Selectors.RouteSelector.Choose` | core/routing/src/selector.rs:59-99 | the method follows the selection step |
| `Selectors.RouteSelector.RecordFailure` | core/routing/src/selector.rs:103-115 | the method follows the failure step |
| `Selectors.RouteSelector.RecordSuccess` | core/routing/src/selector.rs:118-120 | the method follows the success step |
| `Selectors.FindCandidate` | core/routing/src/selector.rs:130-132 | the first candidate with the ID |
| `Selectors.PolicyIsLawful` | core/routing/src/lib.rs:84-134 | scoring satisfies what the selector theorems assume of it |
| `Selectors.PolicyIsGrouped` | core/routing/src/lib.rs:117-134 | a node chosen among several is also chosen when only the nodes of its ID are asked about |
| `Selectors.SelectableMeaning` | core/routing/src/lib.rs:117-134 | an ID's own nodes can be selected if and only if the policy is valid, one of them is available and no available one has a loss above 10000 |
| `Selectors.SelectKeeps` | core/routing/src/selector.rs:59-99 | a returned node is a candidate with a closed circuit and current from now on; an erroring call changes nothing |
| `Selectors.SwitchExactly` | core/routing/src/selector.rs:59-99 | with a current node that is listed, available and not suspended, the selector switches exactly when the best node is another one, the dwell time has passed and the score is higher by the margin; which node or error is returned in each case |
| `Selectors.ReplacedExactly` | core/routing/src/selector.rs:59-99 | without such a current node the best one is returned and is current, from now on or still |
| `Selectors.NothingToChoose` | core/routing/src/selector.rs:64-69 | an error among the eligible candidates is the answer and changes nothing |
| `Selectors.FindFirst` | core/routing/src/selector.rs:130-132 | a lookup finds the candidate at the first position with the ID |
| `Selectors.DistinctIdsDecide` | core/routing/src/selector.rs:130-132 | distinct IDs satisfy the condition under which only available nodes are returned |
| `Selectors.IsolatedFirst` | core/routing/src/selector.rs:64-70 | when every other circuit is open and an ID's own nodes can be selected, the first node of that ID is returned, available or not |
| `Selectors.RepeatedIdIsReturnedUnavailable` | core/routing/src/selector.rs:64-70 | a fresh selector given an unavailable and an available node of one ID returns the unavailable one |
| `Selectors.SelectedIsAvailable` | core/routing/src/selector.rs:59-99 | if the first node of each ID whose own nodes can be selected is available, only available nodes are returned |
| `SelectorRuns.AvailableExactly` | core/routing/src/selector.rs:59-132 | where circuits can open, no run returns an unavailable node if and only if the first node of each ID whose own nodes can be selected is available; no policy or measurement is excluded |
| `SelectorRuns.OutageIsolates` | core/routing/src/selector.rs:103-127 | a run of just enough failures of the other IDs after which the first node of the remaining ID is returned |
| `SelectorRuns.AvailableWithoutCircuits` | core/routing/src/selector.rs:59-132 | where circuits cannot open, no run returns an unavailable node if and only if the first node of the ID chosen among all is available |
| `SelectorRuns.NeverOpens` | core/routing/src/selector.rs:112-127 | an empty cooldown, or one beyond the clock, never opens a circuit |
| `Selectors.VoluntarySwitch` | core/routing/src/selector.rs:76-97 | leaving a node that could be kept waits for the dwell time and gains at least the margin, with no shortfall from saturation |
| `Selectors.ExcessiveMarginPins` | core/routing/src/selector.rs:86-91 | a margin above the score range is never met |
| `SelectorRuns.Replay` | core/routing/src/selector.rs:43-120 | the object goes through exactly the states of the step function |
| `SelectorRuns.CircuitsRecordAttempts` | core/routing/src/selector.rs:59-120 | over any run the circuit map is the one its failures and successes record |
| `SelectorRuns.SelectedIsNotSuspended` | core/routing/src/selector.rs:59-127 | over any run a selected node is not suspended by its history |
| `SelectorRuns.ChangesAreApart` | core/routing/src/selector.rs:76-97 | consecutive changes are at least the dwell time apart unless the node left behind was absent, unavailable or suspended |
| `SelectorRuns.VoluntarySwitchesBounded` | core/routing/src/selector.rs:76-97 | in any window of any run, n voluntary switches take at least n - 1 dwell times |
| `SelectorRuns.SteadySettles` | core/routing/src/selector.rs:59-99 | with fixed candidates that stay eligible there is at most one change from any state, to the best node |
| `Backoffs.DelayExact` | core/routing/src/backoff.rs:45-71 | the closed form with every fallback unreachable, and exactly when there is which error or no further delay |
| `Backoffs.BaseExact` | core/routing/src/backoff.rs:58-63 | shift and product never overflow |
| `Backoffs.DelayBounded` | core/routing/src/backoff.rs:66-70 | never above the maximum and never below half the base |
| `Backoffs.DelayMonotone` | core/routing/src/backoff.rs:45-71 | non-decreasing in attempt and sample |
| `Backoffs.DelayCentered` | core/routing/src/backoff.rs:64-69 | sample 5000 gives the base itself |
| `Backoffs.FactorSymmetric` | core/routing/src/backoff.rs:66-66 | factors of opposite samples sum to 20000 exactly when the division is exact, and to 19999 otherwise |
| `Backoffs.WaitedBounded` | core/routing/src/backoff.rs:23-71 | a whole series of retries waits at most its length times the maximum |

## Left out

- Process spawning, executables, file permissions, locks and key files: they are the environment, which may fail at any step.
- Health and handshake queries, telemetry, the node registry, HTTP handlers and bearer tokens: each is settled by reading one branch.
- The text of IP addresses, of nftables input and of command arguments: rules are structured statements and commands carry their parameters as values.
- Routes overwritten by `route replace`: the code keeps no record of them, so only links and policy rules are claimed to be undone.
- Recovery after the client process is killed: the code keeps no record to recover from.
- The rule text of the node gateway's own nftables table: forwarding is on or off for an interface.
- Client profile parsing (hexadecimal keys, CIDR text): thin wrappers over library parsers.
- Error message texts: errors are told apart by kind only.
- Mutexes: every method is one atomic step, as it holds one lock throughout.
- Prefixes.OverlapExact: is about prefixes whose shift stays below the width; longer shifts are not defined in the source either, and `Gateways.ClientNetworkShifts` shows that validation never performs one.
- Messages.ConfigRoundTrip: is about fields shorter than 2^32 bytes, because longer ones have their length truncated; `Configurations.ValidIsEncodable` shows that validated configurations are within that bound.
- ConnectionRuns.Run: does not promise that a repeated disconnect completes, because the code refuses it once the resolvers are reverted; `DeadEnds.Lift` says exactly from where it does.
