# AgentLine: model and proofs

AgentLine connects desktop agents ("servers") with phones and browsers ("clients") through a relay.
This project models the parts of it that carry an argument, in Dafny, and proves what they promise.

**The relay.** `ConnectionManager` keeps five maps over sockets: waiting servers, pairs, pair lookup, active
servers and their accounts. `RelayMaps` says when they agree and proves exactly which operations keep
them in agreement; `Connections` is the class itself, method by method against those functions.
`Handler`, `OpenRelay` and `Forwarding` are the grant-free relay as a system of steps over received frames
and closes, with safety and delivery over whole runs; `WsHandler` is its message handler as a class.
`GrantStore` is the control plane's tables. `GrantRelay` is the relay with grants, in which every `await` of
a handler is a step boundary: registrations, replacements, closes, revocations and competing consumers
may fall between any two steps. `GrantBooks` proves what its tables, accounts and suspended handlers keep on every
run, `GrantMaps` what the five maps keep, `GrantSockets` when it keeps to open sockets; `GrantResults` and `GrantLaws` hold the
main results and `GrantScenarios` concrete runs on which a promise fails. `Registry` is username
ownership, `Keepalive` the ping and pong timers, `Timestamps` the text comparison that decides
expiry and reclamation.

Runs start from any registry and any sound tables, since the relay restarts on persisted ones.

One assumption about the environment is stated openly. The handler does not stop a socket from succeeding
with a second control message, and a second one can break the maps. The model does not forbid it:
`Free` says when a control message comes from a socket the maps have room for, and the theorems
`OpenRelay.MapsAgreeIffSocketsFree` and `GrantResults.MapsAgreeIffSocketsFree` prove that agreement holds after
every step if and only if each effective control message was free. `OpenRelay.OnceEachIsFree` and
`GrantMaps.OneUseEachIsFree` prove that they all are on every run on which no socket has two control messages take
effect. What the control plane promises about grants, marks, routes and sessions needs no such assumption.
The keepalive timers of a socket rest on the same assumption; `Keepalive` counts the control messages of its
socket that take effect and proves for which counts and which timeouts the timers behave.

**Message order.** `ParentChain` is `orderByParentChain` with its nested `visit` as a class, for any parent
relation; `ParentChainOrder` and `ParentChainResults` prove what its result is, `ParentChainLoss` exactly when it loses items, and
`ParentChainLaws` says where each item ends up in terms of the items' own fields.

**Codecs.** `Unicode`, `Base64` and `ProjectId` compose UTF-16, UTF-8 (section 3 of RFC 3629) and unpadded base64url
(section 5 of RFC 4648). `BinaryFraming` has the UUID text (section 4 of RFC 9562), 64-bit offsets limited to
2^53 - 1, upload frames and envelopes. `Utf8Laws`, `Base64Laws` and `FrameLaws` fix what the codecs compute by the standards'
tables, numbers and positions, for malformed input, too.

**Loops over streams and lists.** `Utf8Streams`, `Lines`, `EventStream` and `LineFilter` treat text that arrives in
chunks; `Upload` is `uploadChunks` as a machine driven by events, and `fileToChunks`; `CssRules`, `CssRemoval`,
`CssRemovalResults` and `CssClasses` are the removal of unused CSS rules, and `CssLaws` fixes what they read in a line; `Update` and `StableSort` are versions and updates.
`Options`, `Sequences` and `Text` are shared helpers.

Where the code does not do what its documentation says, or what one would expect of it, the model follows the
code, a lemma gives an input that shows it, and a theorem states exactly when the promise holds:

- A second successful control message on one socket makes the five maps disagree (`OpenRelay.TwoRegistrationsDisagree`; exactly when: `OpenRelay.MapsAgreeIffSocketsFree`), and in grant mode a client can be paired with the wrong device (`GrantScenarios.WrongDeviceIsPaired`; exactly when: `GrantResults.PairsMatchAccountsIff`).
- With grants, a socket that closed while its handler was suspended is registered, or paired, all the same and stays tracked (`GrantScenarios.ClosedServerIsRegistered`, `GrantScenarios.ClosedClientIsPaired`; exactly when: `GrantSockets.TrackedOpenIffSendersOpen`).
- A keepalive whose pong timeout is not shorter than its ping interval leaves a timer that later closes the paired server (`Keepalive.OverlapLeavesTimer`, `Keepalive.AnsweringLateIsClosed`), and so does, with any timeout, a second registration on the socket, which starts a second interval and forgets the first (`Keepalive.AnsweringTwiceIsClosed`, `Keepalive.DoubledIsUnsafe`; exactly when: `Keepalive.SafeIff`, `Keepalive.OnlySilenceClosesIff`, `Keepalive.AnsweringIsNeverClosedIff`).
- `dag.ts` says unconnected items are appended; a list with duplicate ids can lose items instead (`ParentChainLoss.DuplicateRootIsLost`; exactly when: `ParentChainLoss.PermutationIff`), and an empty parent id is neither a parent nor a root (`ParentChainResults.EmptyParentIsNoRoot`; exactly when: `ParentChainResults.InOrderIff`).
- `scripts/dev.js` decodes each chunk by itself, so a character cut in two is replaced (`LineFilter.SplitCharacterIsGarbled`; exactly when: `LineFilter.ReceivedIsTextIff`).
- `findRuleForClass` promises the rule that contains the class; under a rule written on one line it returns that rule instead (`CssRules.WholeRuleAboveIsTaken`; exactly when: `CssRules.RuleSpansLineIff`).
- `compareSemver` answers 0 when either side is no version, so on mixed strings it is no order (`Update.PreorderIff`).

The overlap test of the CSS removal looks only at the ends of the new rule, so for ranges in an arbitrary order it
would let through one that strictly encloses an earlier one (`CssRemoval.AcceptedDisjointIff`,
`CssRemovalResults.RemovalExactIff`). The script passes classes in ascending line order, and then that never
happens: `CssClasses.AcceptedAreDisjoint` and `CssClasses.RemoveUnusedRules` prove the removal exact on every call it makes.

## Model

| member | source | states |
|---|---|---|
| Registry.UsernameRegistry.Register | packages/relay/src/registry.ts:55-86 | A claim succeeds exactly when `canRegister` allowed it, which is when the name is well formed and unowned or already this installation's; only then is the row written, and an existing row keeps its owner and registration time. |
| Registry.UsernameRegistry.UpdateLastSeen | packages/relay/src/registry.ts:92-97 | Touches the last-seen time of an existing row and nothing else. |
| Registry.UsernameRegistry.ReclaimInactive | packages/relay/src/registry.ts:122-133 | Deletes exactly the rows last seen before the cutoff, reports how many, and leaves the rest as they are. |
| Registry.RowsAre | packages/relay/src/registry.ts:55-97 | A claim writes a new row with its installation and both instants or refreshes the last-seen time of an existing one; a touch only refreshes; other rows stay. |
| Registry.OwnerNeverChanges | packages/relay/src/registry.ts:55-97 | Over every run of claims and touches an owned username keeps its installation and registration time. |
| Registry.FirstClaimDecides | packages/relay/src/registry.ts:33-86 | First come, first served: after any run on an unowned name a claim is accepted if and only if the name is well formed and nobody else claimed it first. |
| RelayMaps.RegisteredConsistentIff | packages/relay/src/connections.ts:130-160 | Registering keeps the five maps in agreement if and only if the socket is unpaired and waits, if at all, under this username. |
| RelayMaps.ConnectedConsistentIff | packages/relay/src/connections.ts:206-227 | Pairing a client keeps the maps in agreement if and only if the client socket was untracked. |
| RelayMaps.ClosedConsistent | packages/relay/src/connections.ts:263-300 | A close keeps the maps in agreement whatever username it is reported with. |
| RelayMaps.PartnerInvolution | packages/relay/src/connections.ts:238-245 | Pair lookup is an involution without fixed points that stays inside the pair. |
| RelayMaps.PairsAreSeparate | packages/relay/src/connections.ts:213-217 | Two pairs sharing an end are one pair, and no socket is both a server and a client. |
| RelayMaps.LookupHoldsPairEnds | packages/relay/src/connections.ts:84-88 | The lookup's keys are exactly the pair ends, so it is twice as large as the set of pairs. |
| RelayMaps.ActiveServersAreWaitingOrPaired | packages/relay/src/connections.ts:84-92 | Active servers are exactly the waiting sockets and the server ends of pairs, and waiting sockets are no pair ends. |
| RelayMaps.ActiveServerCount | packages/relay/src/connections.ts:84-92 | There are as many active servers as waiting usernames and pairs together. |
| RelayMaps.ClosedReportsThePair | packages/relay/src/connections.ts:276-298 | The close of a paired socket reports its live pair, the paired server's description and the right initiator; any other close reports no pair. |
| RelayMaps.UntrackedCloseIsSilent | packages/relay/src/connections.ts:263-300 | The close of an untracked socket changes and reports nothing, under any username. |
| RelayMaps.ReplacedServerClosesSilently | packages/relay/src/connections.ts:130-143 | The late close of a replaced server leaves the new waiting socket and every pair untouched. |
| RelayMaps.SecondEndClosesSilently | packages/relay/src/connections.ts:276-299 | After one end of a pair has closed, the close of the other end changes and reports nothing. |
| RelayMaps.CloseIsLocal | packages/relay/src/connections.ts:263-300 | A close leaves every other username, pair, server and account as it was. |
| RelayMaps.RegisteredIsLocal | packages/relay/src/connections.ts:130-160 | A registration reaches its username, its socket and the replaced server, which is gone with its account, and nothing else. |
| RelayMaps.ConnectedIsLocal | packages/relay/src/connections.ts:206-227 | A pairing takes the server off its username, marks it paired, makes one pair of both sockets and touches nothing else. |
| RelayMaps.ClosedReports | packages/relay/src/connections.ts:263-300 | What a close reports from the maps alone: a waiting server under its own username, else the pair with its server and initiator, else nothing. |
| Connections.ConnectionManager.RegisterServer | packages/relay/src/connections.ts:108-163 | Which of the three answers is given, the whole new state of maps and registry, the one close call to a replaced server, and that agreement survives exactly for a free socket. |
| Connections.ConnectionManager.ConnectClient | packages/relay/src/connections.ts:194-228 | The answer, the whole new state, the server and account handed back, and that agreement survives exactly for an untracked client. |
| Connections.ConnectionManager.Forward | packages/relay/src/connections.ts:238-253 | One send with the same data and frame type to the partner, and none for an unpaired socket. |
| Connections.ConnectionManager.HandleClose | packages/relay/src/connections.ts:263-300 | The whole new state, the reported result, the one close call to the peer, and that agreement is kept. |
| Connections.ConnectionManager.DisconnectServersBySession | packages/relay/src/connections.ts:302-314 | Every server bound to the session is asked to close exactly once, nobody else is, and the count is theirs. |
| OpenRelay.MapsAgreeIffSocketsFree | packages/relay/src/ws-handler.ts:224-460 | On every run of the grant-free relay the five maps agree after each step if and only if each successful control message came from a free socket. |
| OpenRelay.FirstSuccessIsFree | packages/relay/src/ws-handler.ts:279-281 | A socket whose state carries no username yet is free for any control message. |
| OpenRelay.OnceEachIsFree | packages/relay/src/ws-handler.ts:224-460 | On every run on which no socket has two control messages succeed, each of them came from a free socket. |
| OpenRelay.OnceEachKeepsMaps | packages/relay/src/ws-handler.ts:224-460 | So on every such run the five maps agree after each step. |
| OpenRelay.TrackedSocketsAreOpen | packages/relay/src/server.ts:214-219 | Without grants every tracked socket is still open, and each tracked server's username belongs to its installation. |
| OpenRelay.DisconnectReportedOnce | packages/relay/src/ws-handler.ts:482-497 | Each pair is formed once and reported as disconnected exactly once from the first close of either end on, and never before. |
| OpenRelay.AllClosedLeavesNothing | packages/relay/src/ws-handler.ts:482-548 | Once every socket has closed, all five maps are empty. |
| OpenRelay.TwoRegistrationsDisagree | packages/relay/src/ws-handler.ts:224-288 | A socket that registers two usernames ends up waiting under both. |
| Forwarding.DeliveredWithinPairs | packages/relay/src/ws-handler.ts:202-206 | Every delivery on every run goes from one end of a formed pair to the other. |
| Forwarding.LivePairForwardsEverything | packages/relay/src/connections.ts:238-253 | For a live pair, what each end was handed is precisely the frames the other end sent since pairing: in order, once, with their types, from nobody else. |
| Forwarding.DeadPairIsSilent | packages/relay/src/connections.ts:280-284 | The ends of a pair that is gone are handed nothing more. |
| WsHandler.RelayHandler.OnMessage | packages/relay/src/ws-handler.ts:169-480 | The grant-free handler, await-free, takes exactly one step of the relay and stays valid whenever the frame comes from a free socket; its answer tells what has happened (AnswersTell), and exactly a refusal closes the socket. |
| WsHandler.AnswersTell | packages/relay/src/ws-handler.ts:202-460 | From the relay before and after: a welcome means a pair with this client, a registration that the socket waits under the username as asked, and each refusal, which changes nothing, goes with its own state of username and server; binary, other and paired frames get no answer. |
| WsHandler.RelayHandler.OnClose | packages/relay/src/ws-handler.ts:482-548 | Takes exactly the close step, stays valid, leaves no trace of the socket, and records a disconnected pair exactly when the socket was paired. |
| GrantStore.RouteDeterminesAccount | packages/relay/src/db.ts:75-94 | A relay username determines the device and the user behind it. |
| GrantStore.MarkedKeeps | packages/relay/src/control-plane.ts:1179-1205 | The compare-and-set mark keeps the tables sound and never changes a mark that is set. |
| GrantStore.GrantInsertedKeeps | packages/relay/src/control-plane.ts:1088-1157 | Inserting a grant for a device's own route keeps the tables sound and every earlier row. |
| GrantStore.DeviceInsertedKeeps | packages/relay/src/control-plane.ts:764-790 | Inserting a device keeps routes, and the pairs of user and installation, unique, and every earlier row. |
| GrantStore.DeviceUpdatedKeeps | packages/relay/src/control-plane.ts:728-762 | Refreshing a device changes no user, no installation and no route. |
| GrantStore.Store.MarkRelayGrantConsumed | packages/relay/src/control-plane.ts:1179-1205 | Succeeds exactly on an existing unconsumed grant, and then sets its mark and nothing else. |
| GrantStore.Store.CreateRelayGrant | packages/relay/src/control-plane.ts:1088-1157 | Inserts exactly when id and token are new, and keeps the tables sound when the route is the device's. |
| GrantStore.Store.ConsumeRelayGrant | packages/relay/src/control-plane.ts:654-700 | Without interference succeeds exactly on an unrevoked, unconsumed, unexpired grant of the expected type with an active session, marks that one only, and otherwise throws the one error that the order of the checks gives. |
| GrantStore.Store.RegisterOrUpdateDevice | packages/relay/src/control-plane.ts:702-790 | The caller's device of that installation is refreshed without changing its route, or a new one is inserted; the tables stay sound. |
| GrantStore.Store.RevokeSession | packages/relay/src/control-plane.ts:509-521 | From then on the session is active at no time. |
| GrantBooks.RunBooks | packages/relay/src/control-plane.ts:555-700 | On every run, whatever the sockets send, the tables are sound, every tracked server carries the account of its own username, and every suspended handler and every use rests on the grant it names. |
| GrantMaps.RunNames | packages/relay/src/ws-handler.ts:224-460 | While control messages come from free sockets, the maps and the registry agree, and every client was checked against, and paired with, a server registered under the username it asked for. |
| GrantMaps.OneUseEachIsFree | packages/relay/src/ws-handler.ts:224-460 | On every run on which no socket has two control messages take effect, each of them came from a free socket. |
| GrantBooks.PairedAccountMatchesIff | packages/relay/src/ws-handler.ts:355-412 | In every reachable state a cleared client finds a server with its own account if and only if the server that waits by then is registered under the username it waits under. |
| GrantResults.PairsMatchAccountsIff | packages/relay/src/ws-handler.ts:329-427 | On every run each pair formed has its own consumed client grant, and its server has that grant's user and device if and only if it was registered under the username it waited under. |
| GrantResults.EveryPairMatchesAccounts | packages/relay/src/ws-handler.ts:329-427 | As long as no socket has two control messages take effect, every pair joins a consumed client grant to a server authenticated for the same user and device. |
| GrantResults.EachGrantServesOnce | packages/relay/src/control-plane.ts:654-700 | On every run each grant is consumed at most once, before its expiry, and every registration and pair has its own consumed, unrevoked grant of the right type and username, a registration of the right installation, too. |
| GrantLaws.EndedSessionSpendsNothing | packages/relay/src/control-plane.ts:681-689 | Once a session is revoked or has expired, and no handler has passed its check before, however the run goes on no grant of it is consumed and none registers or pairs anything. |
| GrantLaws.EndedServerClearsNobody | packages/relay/src/ws-handler.ts:389-399 | Once the session of a server has ended, no client is cleared for that server any more and no pair is formed by one that was. |
| GrantLaws.SessionsWereActive | packages/relay/src/control-plane.ts:681-684 | Behind every registration and pair of a run lies a moment at which the session of its grant was active, and for a pair one at which the checked server's session was. |
| GrantLaws.UninterruptedConsumption | packages/relay/src/control-plane.ts:654-700 | The three awaits of a consumption with nothing in between come to the one outcome and the one mark that the conditions on grant and session give. |
| GrantLaws.ControlMessageStarts | packages/relay/src/ws-handler.ts:224-343 | A control message starts a handler exactly with a grant that is not blank and, for a client, a waiting server under a registered username, whose account it remembers. |
| GrantLaws.AccountsAreGranted | packages/relay/src/ws-handler.ts:253-277 | Each account of a tracked server, session included, is that of a grant its own socket consumed to register the username it is tracked under. |
| GrantLaws.GrantsAreIssuedAsPromised | packages/relay/src/control-plane.ts:1088-1157 | Every grant a run adds lasts one minute, is routed to its user's device, and names that device's installation exactly when it is to register a server. |
| GrantLaws.IssueInserts | packages/relay/src/control-plane.ts:1088-1157 | The end of an issue inserts one row, created then and expiring a minute later, unless its id or token is taken. |
| GrantLaws.ClientGrantsNeedHeartbeat | packages/relay/src/control-plane.ts:592-628 | A client grant is issued exactly for the caller's own device, seen within the last minute. |
| GrantLaws.ServerGrantsNeedTheDevice | packages/relay/src/control-plane.ts:555-590 | A server grant is issued exactly for the caller's own device with that route and installation. |
| GrantResults.MarksAndRoutesAreForever | packages/relay/src/control-plane.ts:1179-1205 | However a run goes on, grants change nothing but a mark that is set once, and devices keep user and route. |
| GrantResults.RevokedForever | packages/relay/src/control-plane.ts:509-553 | A session revoked at some point of a run is active at no instant of any later state of it. |
| GrantResults.AccountCheckIff | packages/relay/src/ws-handler.ts:374-387 | On every run the account check passes if and only if the grant is for the username asked for and the checked server is registered under it. |
| GrantResults.AccountCheckCannotFail | packages/relay/src/ws-handler.ts:374-387 | While control messages come from free sockets, a client whose grant is for the username it asked for can get neither `auth_required` nor `account_mismatch`. |
| GrantResults.OneUseEachPassesCheck | packages/relay/src/ws-handler.ts:374-387 | Nor can it as long as no socket has two control messages take effect. |
| GrantResults.ReplacementIsPairedSoundly | packages/relay/src/ws-handler.ts:342-412 | On every run a server that registers under the username while a cleared client is suspended is the one paired next, and its account is the client's. |
| GrantResults.MapsAgreeIffSocketsFree | packages/relay/src/ws-handler.ts:224-460 | Under every interleaving the five maps agree after each step if and only if each effective control message found its socket free at that moment. |
| GrantResults.OneUseEachKeepsMaps | packages/relay/src/ws-handler.ts:224-460 | So they agree throughout as long as no socket has two control messages take effect. |
| GrantScenarios.WrongDeviceIsPaired | packages/relay/src/ws-handler.ts:224-427 | A concrete run on which the checked server registers a second device's username during the client's awaits, and the client of the first device is paired with the second. |
| GrantSockets.TrackedOpenIffSendersOpen | packages/relay/src/ws-handler.ts:239-412 | While control messages come from free sockets, every tracked socket is open after each step if and only if each registration and each pairing took effect before its own socket had closed. |
| GrantSockets.OneUseEachKeepsOpenIff | packages/relay/src/ws-handler.ts:239-412 | So it is on every run on which no socket has two control messages take effect. |
| GrantScenarios.ClosedServerIsRegistered | packages/relay/src/ws-handler.ts:239-277 | A concrete run on which a server closes during its await and is registered all the same. |
| GrantScenarios.ClosedClientIsPaired | packages/relay/src/ws-handler.ts:389-417 | A concrete run on which a client closes during its awaits and an open server is paired with it. |
| Keepalive.SafeIff | packages/relay/src/ws-handler.ts:84-135 | On all runs with at most `n` effective control messages of the socket at most one pong timeout is pending and a paired socket has no timers, if and only if `n` is 0, or it is 1 and the timeout is shorter than the interval. |
| Keepalive.OnlySilenceClosesIff | packages/relay/src/ws-handler.ts:103-114 | Under exactly that condition every timeout that fires finds an unpaired socket and a ping unanswered for the whole timeout. |
| Keepalive.AnsweringIsNeverClosedIff | packages/relay/src/ws-handler.ts:84-135 | A socket that answers each ping in time is never closed by the keepalive, on any run with at most `n` effective control messages, if and only if `n` is 0, or it is 1 and the timeout does not exceed the interval, or the timeout is 0. |
| Keepalive.SilentIsClosed | packages/relay/src/ws-handler.ts:84-116 | On every run, with any number of registrations and any timeout, a waiting socket silent for more than one interval plus one timeout has been closed. |
| Keepalive.OverlapLeavesTimer | packages/relay/src/ws-handler.ts:118-135 | With a timeout that is not shorter, two pings before the first pong leave a timeout running on the server when it is paired. |
| Keepalive.AnsweringLateIsClosed | packages/relay/src/ws-handler.ts:103-135 | With a longer timeout that run closes a paired server which answered each ping in time. |
| Keepalive.AnsweringTwiceIsClosed | packages/relay/src/ws-handler.ts:84-135 | A socket that registers twice, any gap below the timeout apart, and answers each ping at once is closed. |
| Keepalive.DoubledIsUnsafe | packages/relay/src/ws-handler.ts:84-127 | Pairing such a socket leaves a timeout running on the paired server, whatever the timeout. |
| Keepalive.ClaimKeepsTimers | packages/relay/src/ws-handler.ts:413-424 | A waiting socket that then succeeds as a client is paired with its interval and its timeout running. |
| Keepalive.ConnectionTimers.StartPingInterval | packages/relay/src/ws-handler.ts:84-116 | Every call makes one more live interval and knows only the new one; from unused timers they come out tidy. |
| Keepalive.ConnectionTimers.OnPingDue | packages/relay/src/ws-handler.ts:86-114 | A waiting socket gets one more timeout, the only one exactly when none was pending; on a paired one the interval that fires ends only if it is the known one. |
| Keepalive.ConnectionTimers.OnPongDue | packages/relay/src/ws-handler.ts:104-114 | A tidy timeout closes only an unpaired socket with a ping unanswered for the whole timeout, and leaves nothing pending. |
| Keepalive.ConnectionTimers.StopPingInterval | packages/relay/src/ws-handler.ts:118-127 | The known timers are cleared and forgotten; of tidy timers none is left. |
| Keepalive.ConnectionTimers.Take | packages/relay/src/ws-handler.ts:418-424 | Pairing the server stops its known timers; of tidy timers none is left that could close it. |
| Keepalive.ConnectionTimers.HandlePong | packages/relay/src/ws-handler.ts:129-135 | The known timeout is cleared; of tidy ones none stays pending. |
| Timestamps.TextOrderIsTimeOrder | packages/relay/src/control-plane.ts:678 | In the years 0 to 9999 comparing two timestamp texts is comparing their instants, and equal texts are equal instants (section 5.1 of RFC 3339). |
| Timestamps.TextOrderAgreesIff | packages/relay/src/registry.ts:122-129 | For all time values the earlier text is smaller if and only if both lie in one year, or the later one in the years 0 to 9999, or the earlier one after them. |
| Timestamps.IsoTextIs | packages/relay/src/control-plane.ts:678 | A timestamp in the years 0 to 9999 shows its date and time of day at fixed places. |
| Timestamps.CalendarIs | packages/relay/src/control-plane.ts:678 | Lengths of years and months, and the day on which 1970 begins. |
| ParentChain.NeedsReorder | packages/shared/src/dag.ts:32-41 | Says whether some item's parent does not appear before it. |
| ParentChain.GroupByParent | packages/shared/src/dag.ts:58-64 | Each parent key maps to exactly its children in input order. |
| ParentChain.Visitor.Visit | packages/shared/src/dag.ts:70-78 | Ends on any parent relation, and appends exactly the depth-first walk of the unvisited items below the key. |
| ParentChain.OrderByParentChain | packages/shared/src/dag.ts:53-90 | The loops compute the function that the results below are about. |
| ParentChainOrder.RootWalkIsPreorder | packages/shared/src/dag.ts:66-80 | With distinct ids the marking walk from the roots is the plain preorder of the forest, siblings in input order, and marks exactly what it emits. |
| ParentChainResults.ReorderedIs | packages/shared/src/dag.ts:53-90 | A list in order comes back as it is; any other as the preorder of its root-reachable items, then all others in input order. |
| ParentChainResults.PreorderIsRooted | packages/shared/src/dag.ts:70-80 | The preorder holds exactly the items whose parent chain reaches a parentless item. |
| ParentChainResults.ReorderedIsPermutation | packages/shared/src/dag.ts:53-90 | With distinct ids nothing is lost or duplicated, cycles and missing parents included. |
| ParentChainResults.PartsInOrderIff | packages/shared/src/dag.ts:66-87 | Appending the leftovers is in order exactly when the leftovers are by themselves. |
| ParentChainResults.InOrderIffRooted | packages/shared/src/dag.ts:32-90 | Without empty parent ids the result needs no further reordering if and only if every parent chain ends at a parentless item. |
| ParentChainResults.InOrderIff | packages/shared/src/dag.ts:32-90 | Empty parent ids included, it needs none if and only if the list was in order or the items that reach no root are in order by themselves. |
| ParentChainResults.ReorderedTwice | packages/shared/src/dag.ts:53-90 | A second call changes nothing. |
| ParentChainResults.WalkEmitsOnce | packages/shared/src/dag.ts:70-78 | Whatever the ids, the walk emits each id at most once and marks what it emits. |
| ParentChainLoss.PermutationIff | packages/shared/src/dag.ts:53-90 | For every list the result is a permutation if and only if the list has at most one item, is in order already, or carries no id of a root-reachable item at two positions. |
| ParentChainLoss.MarkedIffRooted | packages/shared/src/dag.ts:66-80 | Whatever the ids, the walk marks exactly the ids of items whose parent chain reaches a parentless item. |
| ParentChainLoss.NothingGained | packages/shared/src/dag.ts:53-90 | Whatever the ids, no item comes back that was not there or more often than it was. |
| ParentChainLoss.DuplicateRootIsLost | packages/shared/src/dag.ts:70-87 | Of two roots with one id behind an item that is out of order, one is lost. |
| ParentChainResults.EmptyParentIsNoRoot | packages/shared/src/dag.ts:35-60 | An item with an empty parent id and its child come back in the wrong order. |
| ParentChainLaws.DistinctLoseNothing | packages/shared/src/dag.ts:19-90 | When no two items go by the same uuid, or else id, nothing is lost or duplicated, and a list in order stays as it is. |
| ParentChainLaws.ConnectedComeFirst | packages/shared/src/dag.ts:53-90 | In those terms, items whose chain reaches a parentless item come first, a parent before its children and an item after its earlier siblings with all that lies under them; the others follow in input order. |
| ParentChainLaws.IdServesAsUuid | packages/shared/src/dag.ts:22-24 | Reordering commutes with moving the id of an item without uuid into its uuid. |
| ParentChainLaws.OnlyLinksMatter | packages/shared/src/dag.ts:22-24 | Next to a uuid the id does not matter to the order, nor does anything but identifiers and parents. |
| ParentChainLaws.ParentByIdIsFound | packages/shared/test/dag.test.ts:81-88 | A child in front of the parent that goes by its id comes back behind it. |
| Unicode.ScalarsRoundTripIff | packages/shared/src/projectId.ts:39 | A string survives conversion to scalar values exactly when it has no lone surrogate. |
| Unicode.Utf8RoundTrip | packages/shared/src/projectId.ts:66 | Decoding inverts encoding for every sequence of scalar values (section 3 of RFC 3629). |
| Unicode.TextRoundTripIff | packages/shared/src/projectId.ts:37-67 | Encoding and decoding a string changes nothing exactly when it has no lone surrogate and no leading byte order mark. |
| Utf8Laws.Utf8OfIs | packages/shared/src/projectId.ts:39 | The byte table of section 3 of RFC 3629: length, ranges of the bytes and the bits of the value. |
| Utf8Laws.DecodedOneByOne | packages/shared/src/projectId.ts:66 | Decoding any bytes reads a character that is there; otherwise one U+FFFD stands for the longest part that begins a character, or for a single byte. |
| Utf8Laws.LoneSurrogatesReplaced | packages/shared/src/projectId.ts:39 | Converting to scalar values and back keeps each code unit but a lone surrogate, which becomes U+FFFD. |
| Utf8Laws.PairIs | packages/shared/src/projectId.ts:39 | The scalar value of a surrogate pair. |
| Base64.AtobInverts | packages/shared/src/projectId.ts:41-61 | `atob` inverts `btoa` on every byte sequence. |
| Base64.UrlForm | packages/shared/src/projectId.ts:42-45 | The URL form uses only the base64url alphabet and no padding (section 5 of RFC 4648). |
| Base64.Base64UrlRoundTrip | packages/shared/src/projectId.ts:37-65 | Every byte sequence comes back from its unpadded base64url text. |
| Base64Laws.UrlFormIs | packages/shared/src/projectId.ts:41-45 | Symbol by symbol: three bytes and four symbols of the URL table are one number, missing bits being zero, and there is no padding (sections 4 and 5 of RFC 4648). |
| Base64Laws.FromUrlReads | packages/shared/src/projectId.ts:53-65 | An id in the URL alphabet decodes to the bytes that its digits are in number, and is rejected exactly with one symbol alone in a group. |
| Base64Laws.AtobReads | packages/shared/src/projectId.ts:60-61 | `atob` reads symbols as their number in bytes, the same padded and unpadded. |
| Base64Laws.AtobAcceptsIff | packages/shared/src/projectId.ts:60-61 | `atob` accepts a text without white space exactly when it is symbols, not one alone in a group, and none or as many signs as fill the group up. |
| Base64Laws.AtobIgnoresSpace | packages/shared/src/projectId.ts:60-61 | ASCII white space does not matter to `atob` wherever it stands. |
| ProjectId.FromUrlProjectId | packages/shared/src/projectId.ts:53-67 | The padding and copying loops compute the path behind the id, or fail where `atob` throws. |
| ProjectId.PathRoundTripIff | packages/shared/src/projectId.ts:37-67 | An id always decodes, and gives the path back exactly when the path has no lone surrogate and no leading byte order mark. |
| ProjectId.IdIsWellFormedIff | packages/shared/src/projectId.ts:21-47 | The id of a path satisfies `isUrlProjectId` exactly when the path is not empty. |
| ProjectId.IdsAgreeIff | packages/shared/src/projectId.ts:37-47 | Two paths have the same id exactly when they are the same scalar values, whatever they begin with. |
| ProjectId.IdsAreDistinct | packages/shared/src/projectId.ts:37-47 | Paths without lone surrogates have the same id exactly when they are equal. |
| BinaryFraming.UuidRoundTrip | packages/shared/src/binary-framing.ts:387-433 | An accepted UUID text comes back in canonical lower-case form, and every 16 bytes come back from their text (section 4 of RFC 9562). |
| BinaryFraming.UuidBytes | packages/shared/src/binary-framing.ts:387-411 | The parsing loop computes the bytes, or rejects anything but 32 hexadecimal digits. |
| FrameLaws.UuidTextIs | packages/shared/src/binary-framing.ts:420-433 | The text of 16 bytes has 36 characters, hyphens exactly at 8, 13, 18 and 23, and elsewhere the two lower-case digits of each byte, high half first. |
| FrameLaws.UuidTextUnchanged | packages/shared/src/binary-framing.ts:387-433 | A text already of that form comes back unchanged. |
| FrameLaws.AcceptedUuidIff | packages/shared/src/binary-framing.ts:387-411 | A text is accepted exactly when it is 32 hexadecimal digits of either case and hyphens anywhere. |
| FrameLaws.CaseDoesNotMatter | packages/shared/src/binary-framing.ts:387-411 | Capital digits are the same bytes as small ones. |
| FrameLaws.OffsetIsBigEndian | packages/shared/src/binary-framing.ts:486-507 | Eight bytes are the big-endian number they are, rejected exactly above 2^53 - 1. |
| BinaryFraming.OffsetRoundTripIff | packages/shared/src/binary-framing.ts:444-507 | Encoding accepts exactly the integers 0 to 2^53 - 1 and decoding gives them back. |
| BinaryFraming.OffsetBytesRoundTrip | packages/shared/src/binary-framing.ts:486-507 | Eight bytes are rejected exactly when they exceed 2^53 - 1, and accepted ones encode to themselves. |
| BinaryFraming.Set | packages/shared/src/binary-framing.ts:521-542 | Writes the source at the position and leaves the rest of the buffer alone. |
| BinaryFraming.WriteUploadChunkFrame | packages/shared/src/binary-framing.ts:521-542 | Writing piece by piece at a moving position gives the format byte followed by the encoded payload. |
| BinaryFraming.ChunkRoundTrip | packages/shared/src/binary-framing.ts:576-627 | A payload encodes exactly for an accepted UUID and a safe offset, and decodes to the canonical id, the offset and the data. |
| BinaryFraming.AcceptedChunkReencodes | packages/shared/src/binary-framing.ts:576-627 | Every accepted payload is the encoding of what it decodes to. |
| BinaryFraming.FrameRoundTrip | packages/shared/src/binary-framing.ts:521-566 | A frame decodes to its chunk, and is also the format-prefixed payload that the envelope carries. |
| FrameLaws.UploadFrameIs | packages/shared/src/binary-framing.ts:521-542 | An encoded frame is the byte 2, 16 bytes of the id, 8 of the offset and the data, at these places. |
| FrameLaws.DecodedUploadFrameIs | packages/shared/src/binary-framing.ts:553-627 | Bytes are an upload frame exactly when they are the byte 2 and at least 24 more with an offset up to 2^53 - 1; what it holds stands at fixed places, and other formats and short frames get their own errors. |
| FrameLaws.FormatByteIs | packages/shared/src/binary-framing.ts:71-100 | Frames and decrypted messages are split behind a first byte of 1, 2 or 3, and rejected otherwise. |
| BinaryFraming.AcceptedFrameReencodes | packages/shared/src/binary-framing.ts:553-566 | Every accepted frame is the encoding of what it decodes to. |
| BinaryFraming.EnvelopeRoundTrip | packages/shared/src/binary-framing.ts:222-285 | An envelope parses back to its parts exactly when its ciphertext has at least 17 bytes, and what parses is created again from its parts. |
| FrameLaws.EnvelopeIs | packages/shared/src/binary-framing.ts:222-252 | Bytes are an envelope exactly when there are at least 42 and the first is 1; nonce and ciphertext stand at 1 and 25. |
| Utf8Streams.StreamingIsWhole | packages/client/src/api/client.ts:698-704 | However bytes are cut into chunks, malformed ones included, the streaming decoder's outputs join to the text of the whole. |
| Utf8Streams.StreamTextIs | packages/client/src/api/client.ts:698-704 | The text of a stream is that of its bytes without a byte order mark at the start. |
| Utf8Streams.CutNeverShortens | scripts/dev.js:47-48 | Decoding two parts separately never yields fewer characters than decoding the whole. |
| Utf8Streams.EachKeepsTextIff | scripts/dev.js:47-48 | Decoding each chunk by itself gives the text of the whole exactly when every chunk starts and ends between characters. |
| Unicode.CutKeepsTextIff | scripts/dev.js:47-48 | The same for a single cut: exactly when the first part ends between characters. |
| Lines.SplitConcat | scripts/dev.js:48-51 | Splitting may be done as text arrives, by keeping the last piece, also when a carriage return and its line feed fall into different chunks. |
| Lines.SplitJoins | packages/client/src/api/client.ts:706-713 | Splitting at line feeds is undone by joining, and no piece holds a line feed. |
| Text.TrimIs | scripts/find-unused-css.ts:132 | A string is its trimmed form with white space around it, every such character written out, and the trimmed form has none at its ends. |
| Lines.ReturnsComeOff | scripts/dev.js:50 | `/\r?\n/` gives the line-feed pieces, each but the last without one trailing carriage return. |
| EventStream.TakeLines | packages/client/src/api/client.ts:706-714 | The inner loop delivers the complete lines of the buffer up to one that does not parse, and keeps what follows the last line feed. |
| EventStream.ReadEvents | packages/client/src/api/client.ts:698-723 | However the stream is cut, the events are those of the whole text: its lines and tail, trimmed, the empty ones dropped, up to the first that does not parse. |
| EventStream.LineAdds | packages/client/src/api/client.ts:706-723 | What a line adds to the events: nothing after a failure or if it is blank, otherwise the event that the text between its white space is parsed to, or the failure. |
| LineFilter.Forwarder.OnData | scripts/dev.js:47-58 | After any chunks the output is the complete lines so far that are not suppressed, and the buffer is the piece behind them. |
| LineFilter.Forwarder.OnEnd | scripts/dev.js:60-64 | The final output is that of splitting the whole text at once, with a last line left without line feed. |
| LineFilter.ForwardStream | scripts/dev.js:43-65 | The output of a whole stream depends on the decoded text only, not on its cuts. |
| LineFilter.ForwardedLine | scripts/dev.js:47-64 | Line by line: each line is written with a line feed and without its carriage return unless it is suppressed, and what follows the last line feed as it is. |
| LineFilter.ReceivedIsTextIff | scripts/dev.js:47-48 | That text is the text of the stream exactly when no chunk ends inside a character. |
| LineFilter.SplitCharacterIsGarbled | scripts/dev.js:47-48 | A two-byte character over two chunks arrives as two replacement characters. |
| Upload.Uploader.Dispatch | packages/client/src/api/upload.ts:65-206 | The handlers take exactly one step of the upload machine per event. |
| Upload.Uploader.AbortHandler | packages/client/src/api/upload.ts:88-101 | An unresolved upload is aborted: a cancel if the socket is open, then close and rejection. |
| Upload.Uploader.MessageHandler | packages/client/src/api/upload.ts:109-136 | Progress is reported; `complete` and `error` settle, clean up and close. |
| Upload.Uploader.Resume | packages/client/src/api/upload.ts:174-184 | The next chunk is sent, or `end` behind the last one, and nothing once aborted. |
| Upload.WireIsScript | packages/client/src/api/upload.ts:65-206 | On every run the wire is a beginning of start, chunks in order, end, followed by at most one cancel, which is last. |
| Upload.EndMeansEverything | packages/client/src/api/upload.ts:174-186 | When `end` is on the wire, so are the start and every chunk, and the payload is the whole input. |
| Upload.CancelExactly | packages/client/src/api/upload.ts:88-101 | A cancel goes out exactly when the signal aborts an upload whose socket is open. |
| Upload.SettledIsFinal | packages/client/src/api/upload.ts:65-206 | A settled upload keeps its outcome, sends nothing more and reports no more progress. |
| Upload.FirstVerdictDecides | packages/client/src/api/upload.ts:88-205 | The first deciding event settles the upload with its own outcome, and the close of the socket always decides. |
| Upload.EachEventSends | packages/client/src/api/upload.ts:88-186 | What each event puts on the wire, on every run. |
| Upload.ProgressIsReported | packages/client/src/api/upload.ts:109-118 | Progress is reported exactly for the progress messages that an open socket receives, once each and in order. |
| Upload.SettledIsClosing | packages/client/src/api/upload.ts:75-206 | A settled upload's socket is closed or closing, and a resolved one no longer listens to the signal. |
| Upload.FileToChunks | packages/client/src/api/upload.ts:216-228 | The chunks tile the file exactly, all of full size but the last, which is not empty. |
| Upload.SlicingEndsIff | packages/client/src/api/upload.ts:220-227 | The loop ends exactly when the chunk size is positive or the file is empty. |
| CssRules.FindRuleForClass | scripts/find-unused-css.ts:254-359 | The range starts at the attached comment lines or the selector and ends at the first line behind which braces balance; there is none exactly without an opening or a balancing line. |
| CssRules.FindEnd | scripts/find-unused-css.ts:307-322 | The first line from the opening brace on behind which as many braces are closed as opened. |
| CssRules.RuleSpansLineIff | scripts/find-unused-css.ts:254-322 | The range lies in the file and spans the class's line unless the backward scan stops at a whole rule on one line above. |
| CssRules.WholeRuleAboveIsTaken | scripts/find-unused-css.ts:261-278 | For a selector below a one-line rule that rule is returned. |
| CssRules.LowerRuleIsSameOrBelow | scripts/find-unused-css.ts:254-359 | For a class further down the rule found is the same, or begins below the upper class's line. |
| CssLaws.FoundIs | scripts/find-unused-css.ts:254-359 | In characters: where the selector of a line begins, its first opening brace from there on, and the first line up to which as many braces are closed as opened. |
| CssLaws.ScanBackIff | scripts/find-unused-css.ts:261-278 | A selector begins at the nearest line upwards with an opening brace or just below one with a closing brace, or at the top. |
| CssLaws.CommentStartIs | scripts/find-unused-css.ts:324-350 | The comment lines right above a selector belong to its rule unless a line of that block is blank. |
| CssRemoval.AcceptedIs | scripts/find-unused-css.ts:386-401 | For ranges in any order, two accepted ones are apart, or the later strictly encloses the earlier. |
| CssRemoval.AcceptedDisjointIff | scripts/find-unused-css.ts:390-397 | For ranges in any order, accepted ones are pairwise disjoint exactly when none strictly encloses one accepted before it. |
| CssRemoval.SortedDescends | scripts/find-unused-css.ts:404 | Sorting puts the accepted rules in strictly descending order. |
| CssRemoval.RemoveRules | scripts/find-unused-css.ts:371-445 | What is written back, when nothing is, and the two counts. |
| CssRemovalResults.RemovalExactIff | scripts/find-unused-css.ts:386-420 | For ranges in any order, splicing from the bottom up leaves exactly the lines outside all of them, in order, if and only if every accepted range enclosing another has no line left behind it; otherwise the result is shorter. |
| CssRemovalResults.DisjointRemoval | scripts/find-unused-css.ts:416-420 | Pairwise disjoint rules are removed exactly. |
| CssRemovalResults.OutsideIs | scripts/find-unused-css.ts:416-420 | What is left is exactly the lines that lie in no rule, the rule's first and last line included, in their order. |
| CssClasses.ExtractClassSelectors | scripts/find-unused-css.ts:118-159 | The classes of a file come in ascending line order, each name once with the first line that lists it (NamesOnIff), and exactly the names of two or more characters. |
| CssLaws.NamesOnIff | scripts/find-unused-css.ts:127-142 | A line lists exactly the names that stand behind a dot, begin with a letter or underscore and run over letters, digits, underscores and hyphens as far as they go, unless it begins a comment or looks like a property. |
| CssClasses.SortingChangesNothing | scripts/find-unused-css.ts:562 | The unused classes of a file are in the order of their lines before they are sorted. |
| CssClasses.LowerNeverEncloses | scripts/find-unused-css.ts:386-397 | A rule found for a class never encloses one found for a class above it. |
| CssClasses.AcceptedAreDisjoint | scripts/find-unused-css.ts:386-401 | On every list of classes the script can pass, the accepted rules are pairwise disjoint. |
| CssClasses.RemoveUnusedRules | scripts/find-unused-css.ts:371-445 | What is written back is every line outside pairwise disjoint rules of unused classes, in order, with runs of blank lines collapsed; nothing for a dry run or without rules. Every ungrouped rule of an unused class is among those that go, or has an end in one of them. |
| CssRemovalResults.CollapseIs | scripts/find-unused-css.ts:422-430 | No two adjacent lines are blank, all other lines are kept in order, and nothing changes exactly when there was nothing to collapse. |
| CssLaws.CollapseAdds | scripts/find-unused-css.ts:422-430 | Line by line, a blank line behind a blank line is left out and every other line is kept. |
| Update.CompareSemver | packages/shared/src/update.ts:40-63 | The loop computes the comparison of the numbers read from both sides, and 0 when either has none. |
| Update.PrintedVersionParses | packages/shared/src/update.ts:36-54 | A printed version, with or without `v` and with any suffix, is read as its three numbers. |
| Update.ParsesIff | packages/shared/src/update.ts:36-54 | A text is read as a version exactly when, without white space and one `v`, it is three numbers with dots and nothing or a hyphen or plus sign and more on that line, and as these numbers. |
| Update.NormalizedIs | packages/shared/src/update.ts:36-38 | White space around and one `v` or `V` in front do not belong to a version. |
| Update.CompareIsTripleOrder | packages/shared/src/update.ts:40-63 | On versions the comparison is antisymmetric and the lexicographic order of the three numbers, suffixes ignored. |
| Update.PreorderIff | packages/shared/src/update.ts:53-55 | On a set of strings it is a preorder exactly when all are versions or those that are carry one number. |
| Update.ValidParses | packages/relay/src/update-routes.ts:22-26 | Whatever the routes accept as a version, the comparison can read. |
| Update.ValidIff | packages/relay/src/update-routes.ts:22-26 | The routes accept exactly three numbers with dots and nothing or a hyphen or plus sign and letters, digits, dots and hyphens. |
| Update.LatestIsNewest | packages/relay/src/index.ts:200-206 | The chosen manifest is an eligible release and no eligible release is newer. |
| Update.NoManifestIff | packages/relay/src/index.ts:200-206 | There is no manifest exactly when no release is eligible. |
| Update.EligibleIff | packages/relay/src/index.ts:144-147 | A release is eligible exactly when it is no draft, no prerelease, and has an address and a valid version. |
| Update.OfferIffNewer | packages/relay/src/update-routes.ts:73-94 | An update is offered exactly when both versions are valid and the offered one is lexicographically above, and it is the fetched manifest or the one of the relay's own version; an invalid current version is the only other answer than none. |
| Update.OfferIffSomeReleaseIsNewer | packages/relay/src/update-routes.ts:73-94 | With a fetched list an update is offered exactly when some eligible release is above the current version. |
| Update.ScoreDownload | packages/shared/src/update.ts:88-101 | The accumulated score is the sum of its contributions, each spelled out. |
| Update.SelectedIsBest | packages/shared/src/update.ts:107-147 | The selected download is the first of the installable ones with the top score; there is none only without any. |
| Update.InstallableIff | packages/shared/src/update.ts:119-134 | What can be installed on which platform, and when a store package can. |
| Update.OwnPlatformWins | packages/shared/src/update.ts:107-147 | A download for the platform itself always wins over one for any desktop. |
| StableSort.FirstIsBest | packages/relay/src/index.ts:205-206 | What a stable sort puts first is preceded by nothing, and is the earliest such element. |
| StableSort.SortedInOrder | packages/relay/src/index.ts:205 | For a comparison that orders the elements, the sort puts them in order. |
| StableSort.SortedAlready | scripts/find-unused-css.ts:562 | A list that is in order stays as it is. |

## Left out

- WsHandler.RelayHandler.OnMessage: covers the grant-free handler, which has no await before its effects; the handler with grants is modelled on values in GrantRelay, where each await ends a step, because a method cannot be suspended.
- GrantStore.Store.ConsumeRelayGrant: a token stands for its hash (hashes are taken to be injective), trimming happens in GrantRelay, and interference between its statements is the business of GrantRelay.
- GrantStore.Store.RegisterOrUpdateDevice: inputs are the trimmed ones, fresh ids and routes are parameters, and the search for an unused route is the UNIQUE constraint itself.
- GrantBooks.RunBooks: issuing a grant checks the device in one step and inserts the row in a later one; the lower-casing of usernames in requests is not modelled.
- Keepalive.SilentIsClosed: timers fire exactly when due; an event loop that runs late is not modelled.
- Keepalive.SafeIff: about one `ConnectionState`; a socket that closes during its await is registered on a discarded state, and pairing it later marks a new one whose timers are not those.
- Timestamps.TextOrderIsTimeOrder: the tables hold instants as numbers, which by this theorem is the same in the years 0 to 9999; PostgreSQL's own timestamp type is not modelled.
- ParentChainResults.InOrderIffRooted: asks that no parent id is the empty string, which `needsReorder` and the grouping treat differently; InOrderIff covers those lists too, in terms of the items that reach no root.
- ProjectId.PathRoundTripIff: the limit on the number of arguments of `String.fromCharCode` for very long paths is not modelled.
- BinaryFraming.EnvelopeRoundTrip: the encryption behind nonce and ciphertext, JSON payloads and gzip are not part of this model.
- EventStream.ReadEvents: `JSON.parse` is a parameter, `onEvent` does not throw, and the stream itself does not fail.
- LineFilter.ForwardStream: which lines are suppressed is a parameter.
- Upload.WireIsScript: assumes a socket that follows the WebSockets standard; the injectable factory could supply another.
- Upload.FileToChunks: chunk sizes are natural numbers; negative and fractional ones are not modelled, and a size of 0 never ends (SlicingEndsIff).
- CssRules.FindRuleForClass: the regular expression that recognises grouped selectors is a parameter.
- CssRemoval.RemoveRules: takes the rules found as parameters, in any order; CssClasses.RemoveUnusedRules is the whole way.
- CssClasses.RemoveUnusedRules: which classes are unused is a parameter, one file is handled at a time, and reading and writing files is left out.
- Update.CompareSemver: numbers are exact, where `parseInt` rounds above 2^53.
- Update.LatestIsNewest: fetching, caching and asset lists are left out; sorting is modelled as a stable insertion sort.
- Update.SelectedIsBest: the detection of the platform from a user agent is left out.
- Relay login, passwords and SRP, rate limits, telemetry, logging, HTTP routes and statistics pages: plumbing around the modelled state.
- Server-side processes, supervisors, subscriptions and network rebinding: their outcome depends on services outside the modelled files.
- React components, mobile and desktop shells, and build configuration.
- Type guards, getters and summaries: easy members only.
