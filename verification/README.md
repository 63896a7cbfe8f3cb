# Network File Server: a verified model of its relay, tunnel, accounts and share links

The network file server exposes local folders through a relay. Agents connect to the relay over one
WebSocket each and serve many browser requests on it; the relay decides who may enter a mount, keeps the
table of mounts and their deadlines, and the file server hands out signed share links. This project
models the parts of that system whose correctness spans several operations, and proves what they are for.

| file | component |
|---|---|
| `MembershipGraph.dfy`, `GroupResolution.dfy` | reachability in the membership graph; the upward and the downward walk |
| `AccountStore.dfy` | users, groups, memberships, external identities, and runs of store calls |
| `AccessPolicy.dfy` | the access decision over the membership graph |
| `GroupSync.dfy`, `GroupSyncRuns.dfy`, `SsoLogin.dfy` | the two store-changing parts of an SSO callback, alone and interleaved call by call |
| `Frames.dfy` | the wire format, and WebSocket messages inside it |
| `TunnelMachine.dfy`, `TunnelConnection.dfy` | the multiplexed connection as a state machine and as an object |
| `Lanes.dfy` | many senders on one wire: picking one request out of any interleaving |
| `RequestBody.dfy`, `AgentBodies.dfy`, `AgentProgress.dfy` | request bodies: sending, reassembly, progress |
| `ResponsePath.dfy`, `RelayProgress.dfy`, `BodyDelivery.dfy` | responses: reading, progress, delivery to the browser |
| `MountRegistry.dfy`, `MountLifecycle.dfy` | mount rows and live connections; admission and the TTL sweep as uninterrupted calls |
| `MountInterleaving.dfy`, `MountRaces.dfy` | the same with every registry call a step of its own, restarts anywhere |
| `ShareLinks.dfy` | the share-link cache in front of its table |
| `HtmlRewriter.dfy`, `AllowEntry.dfy` | the two string transformations |

`dafny verify dfyconfig.toml` checks everything.

How it is built. Code that changes things in place is a class or a method with a loop, and its `ensures`
ties the new state to a specification function of the old one. That function is a step of a state
machine, and the theorems are about all runs of the machine, in any interleaving. SQL tables are maps and
sets with their key constraints; AUTOINCREMENT is a counter that never goes down; time is a real number
that never runs backwards. One store or registry call is one atomic step; in the tunnel, every `await` is
a step boundary: loops that wait (the receive loop, the stream iterator, the agent's body loop) are steps of
a machine, because anything may happen in between.

Where code and documentation differ, or where a promise needs a condition, the model follows the code:

- the group sync meets its contract if and only if every claimed name is non-empty and free of surrounding
  white space, because `create_group` strips names and the sync compares them unstripped
  (`GroupSync.SyncGroups`, with an instance in `GroupSync.TrailingSpaceNeverSyncs`);
- a sync fails, call by call, exactly when a claimed name cannot be stored, the user is missing, or a group it
  had found or listed was deleted before its next call on it (`GroupSyncRuns.SyncFailsExactlyWhen`, with a run in
  `GroupSyncRuns.DeletedGroupFailsTheSync`); left alone by everybody else it is exact
  (`GroupSyncRuns.UndisturbedSyncIsExact`);
- `deserialize_frame` does not enforce the 65536-byte limit of the sender, so an accepted byte string is
  the encoding of its frame if and only if it is within the limit (`Frames.SerializeDeserialize`);
- asset rewriting is idempotent on every document if and only if the pattern does not occur in the mount
  prefix itself (`HtmlRewriter.IdempotentExactlyWhen`); mount codes without `=` are safe, the code `src="` is
  not (`HtmlRewriter.QuotedCodeIsNotIdempotent`);
- `register` without a connection leaves an older connection of the same code in the map; over every run
  `get_connection` answers for the latest registration or reclaim if and only if that never happens
  (`MountRegistry.LatestIsAnsweredExactlyWhen`). Agents cannot make it happen, since the only local code is
  reserved (`MountInterleaving.EveryRunIsSound`);
- a mount can be warned twice about its expiry, if and only if an earlier send was not followed by its mark:
  the mark raised, hit another row, or the sweep was cancelled or the relay restarted in between
  (`MountInterleaving.SecondWarningExactlyWhen`, with a run in `MountRaces.RestartWarnsTwice`);
- the documentation of `mark_ttl_warned` suggests that a reconnecting mount earns a fresh warning; a
  reclaim keeps the flag and only a new registration resets it;
- the sweep decides on its snapshot and expires by code, so a mount can be expired before its deadline, if and
  only if the expire call hits a registration later than the one the snapshot showed
  (`MountInterleaving.EarlyExpiryExactlyWhen`, with a run in `MountRaces.StaleSnapshotExpiresEarly`); and a mount
  overdue when the sweep started is still ONLINE when it is over if and only if its expire call raised, or it was
  registered after the snapshot and not hit (`MountInterleaving.CompletedSweepIsExact`, with a run in
  `MountRaces.LateRegistrationStaysOverdue`);
- `mark_offline` is documented as safe against reclaims; a handler that leaves takes down another handler's
  connection if and only if the code was registered or reclaimed after it stored its own
  (`MountInterleaving.LeavingTakesDownAnotherExactlyWhen`, with a run in `MountRaces.LeavingTakesDownTheOther`);
- an EXPIRED mount leaves that state exactly at the register call of an admission whose `has_mount` answered
  before the row was inserted (`MountInterleaving.RevivedExactlyWhen`, with a run in
  `MountRaces.AdmissionRaceRevives`);
- a receive loop that is blocked on a full queue can be freed if and only if the reader of that stream has not
  left: a WebSocket bridge that ends, or a browser that leaves, while the loop waits for room in its queue
  blocks the whole tunnel for good (`AgentProgress.UnblockedExactlyWhen`, `RelayProgress.UnblockedExactlyWhen`,
  with runs in `AgentProgress.EndedBridgeBlocksTheTunnel` and `RelayProgress.LeavingBrowserBlocksTheTunnel`);
- replacing an allowlist entry can lower a role, exactly when the replaced entry outranks the new one
  (`AccessPolicy.ReplacingIsSafeExactlyWhen`).

## Model

| member | source | states |
|---|---|---|
| MembershipGraph.HoldsFirstStep | accounts/resolve.py:17-44 | a group holds a subject exactly when it is a direct parent or holds one: the unfolding the upward walk relies on, against path-based reachability |
| MembershipGraph.EdgeClosesWalk | accounts/sqlite_store.py:383-388 | on every graph, corrupt ones too, the guard's test (same group, or the member already holds the group) fires exactly when the new edge lies on a closed walk |
| MembershipGraph.EdgeBreaksAcyclicity | accounts/sqlite_store.py:377-391 | on an acyclic graph the new group edge creates a cycle exactly when the guard's test fires |
| MembershipGraph.UserEdgeKeepsAcyclic | accounts/sqlite_store.py:379-380 | a user edge needs no guard: it never creates a cycle |
| MembershipGraph.AcyclicSubset | accounts/sqlite_store.py:351-365 | deleting edges keeps the graph acyclic |
| MembershipGraph.HoldersInside | accounts/resolve.py:17-44 | everything that holds a subject lies in any set that is closed upward and contains its parents: why the walk misses nothing |
| GroupResolution.Resolver.CollectParents | accounts/resolve.py:17-44 | terminates on every graph; on success all parents are finished (closed upward, off every cycle) and nothing foreign was added; on failure the named group holds the member and lies on a cycle |
| GroupResolution.FinishGroup | accounts/resolve.py:34-44 | the white-path argument: a group whose parents are all finished is finished itself |
| GroupResolution.ResolveUserGroups | accounts/resolve.py:47-59 | cycle error exactly when a cycle is reachable upward from the user, user error exactly for missing users, otherwise exactly the groups with a containment path to the user |
| GroupResolution.ExpandChildren | accounts/sqlite_store.py:525-535 | one frontier entry: adds exactly the direct child groups, and queues exactly the new ones |
| GroupResolution.GroupDescendants | accounts/sqlite_store.py:515-536 | terminates on every graph and returns exactly the groups reachable by one or more containment edges |
| GroupResolution.WalksAreDual | accounts/sqlite_store.py:515-536 | the upward walk from a user reports a group exactly when the group is a direct parent or its downward walk meets one |
| AccountStore.SqliteAccountStore.CreateUser | accounts/sqlite_store.py:149-181 | the stripped name, which nobody had, under a fresh never-reused id, and all other rows as they were; or the exact error and no change |
| AccountStore.SqliteAccountStore.CreateExternalUser | accounts/sqlite_store.py:256-298 | account and identity link are both created or neither is: a linked identity rolls the new row back |
| AccountStore.SqliteAccountStore.GetUserByExternalId | accounts/sqlite_store.py:244-254 | the join of identities and users |
| AccountStore.SqliteAccountStore.CreateGroup | accounts/sqlite_store.py:304-322 | stripped unique name under a fresh id, or the error and no change |
| AccountStore.SqliteAccountStore.GetGroupByName | accounts/sqlite_store.py:334-342 | a group of exactly that name, or an error and there is none |
| AccountStore.SqliteAccountStore.DeleteGroup | accounts/sqlite_store.py:351-365 | exactly the edges survive whose group is another one and whose member is not this group; a user with the same id keeps all memberships; users, links and other groups are unchanged, and a missing group is an error without change |
| AccountStore.ClimbSurvivesExactlyWhen | accounts/sqlite_store.py:351-365 | a containment path survives the deletion of a group exactly when it neither passes nor starts at that group |
| AccountStore.DeletionIsExact | accounts/sqlite_store.py:351-365 | after a deletion a group holds a subject if and only if it did by some path that avoids the deleted group; edges, users, links and other groups are told one by one |
| AccountStore.SqliteAccountStore.AddMember | accounts/sqlite_store.py:371-402 | the code with its worklist does what the path-based specification says: error precedence, exact cycle refusal, one new edge |
| AccountStore.SqliteAccountStore.RemoveMember | accounts/sqlite_store.py:404-416 | exactly one edge goes, or the error and no change |
| AccountStore.SqliteAccountStore.ListParentGroupIds | accounts/sqlite_store.py:435-445 | exactly the direct parents |
| AccountStore.SqliteAccountStore.ResolveUserGroupIds | accounts/sqlite_store.py:447-449 | exact resolution on the store's own graph |
| AccountStore.StepKeepsConsistent | accounts/sqlite_store.py:149-416 | every call keeps ids allocated, names unique and trimmed, edges with existing endpoints, identities injective, and the graph acyclic |
| AccountStore.CycleErrorIsExact | accounts/sqlite_store.py:377-391 | for existing groups the cycle error is raised exactly when the edge would make the graph cyclic |
| AccountStore.EveryRunIsAcyclic | accounts/sqlite_store.py:351-416 | over every run from the empty store: acyclic, no dangling edge, and no resolution can meet a cycle |
| AccountStore.RetiredForever | accounts/sqlite_store.py:58-64 | a deleted group id is never allocated again in any run |
| AccountStore.DeletedGroupHoldsNothing | accounts/sqlite_store.py:351-388 | after a deletion, in no later state of any run does that group id hold any user or group |
| AccountStore.AddThenRemove | accounts/sqlite_store.py:371-416 | removing undoes a successful add |
| AccessPolicy.HighestRole | relay/app/services/access_policy.py:80-81 | a role of the list that none outranks |
| AccessPolicy.MatchedRole | relay/app/services/access_policy.py:84-114 | the loop agrees with the path-based role; it fails exactly on a cycle above an existing user |
| AccessPolicy.Authorize | relay/app/services/access_policy.py:117-170 | for every mode, password setting, identity and graph: a user is identified exactly when some entry that names them, or a group reaching them, is listed; then with their own name and the role of such an entry that no other such entry exceeds; everybody else gets what mode and password say; an error escapes exactly when a cycle lies above the user |
| AccessPolicy.DecisionIsRight | relay/app/services/access_policy.py:117-170 | the same of the specified decision, entry by entry, without going through the effective role |
| AccessPolicy.EffectiveRoleIsMaximum | relay/app/services/access_policy.py:39-41 | the specified role is granted by some entry that names the user or a group reaching the user, none of which outranks it; there is none exactly when no entry matches |
| AccessPolicy.EffectiveRoleMonotone | relay/app/services/access_policy.py:100-114 | more edges and more entries never lower the role |
| AccessPolicy.GrantingNeverRevokes | relay/app/services/access_policy.py:117-170 | adding a member, or an entry for a new subject, never lowers a role or turns an allow into a refusal |
| AccessPolicy.Upsert | relay/app/services/sqlite_registry.py:554-576 | the entry is present, replaced entries of its subject are gone, all others stay |
| AccessPolicy.ReplacingIsSafeExactlyWhen | relay/app/services/sqlite_registry.py:554-576 | replacing an entry lowers nobody's role, whatever the graph, exactly when no replaced entry outranks the new one |
| AccessPolicy.RefusalIsExact | relay/app/services/access_policy.py:163-170 | a request is refused exactly for restricted mounts without a password and requests that no entry matches |
| AccessPolicy.DeletedGroupNeverGrants | relay/app/services/access_policy.py:107-111 | an allowlist entry left over from a deleted group matches nobody in any later state of any run |
| GroupSync.EnsureGroup | relay/app/routers/oidc_auth.py:207-213 | the group exists afterwards and at most that one was created; cannot fail for a trimmed name |
| GroupSync.EnsureMember | relay/app/routers/oidc_auth.py:206-217 | adds exactly one edge, the user's membership in the named group |
| GroupSync.JoinOne | relay/app/routers/oidc_auth.py:206-217 | one more claimed name on top of those done; fails only for a missing user or a name that cannot be stored |
| GroupSync.JoinClaimed | relay/app/routers/oidc_auth.py:205-217 | step 1 in any order of the claimed names: exactly the missing groups and edges are added |
| GroupSync.RevokeUnclaimed | relay/app/routers/oidc_auth.py:219-226 | step 2 without other store calls in between: removes exactly the user's direct unclaimed prefix memberships, and its group lookups cannot fail |
| GroupSync.SyncGroups | relay/app/routers/oidc_auth.py:187-226 | a sync without other store calls in between succeeds and leaves the user in exactly the prefix groups of the claim if and only if every claimed prefix name is trimmed and non-empty and the user exists (when there is one); then a user who is in them already is left alone; edges of other users and nested edges never change |
| GroupSync.SyncIsExact | relay/app/routers/oidc_auth.py:187-226 | a synced store has exactly the claimed direct prefix groups and every other edge unchanged |
| GroupSync.SyncIsIdempotent | relay/app/routers/oidc_auth.py:187-226 | a second sync with the same claim changes nothing |
| GroupSync.UntrimmedNeverMatches | accounts/sqlite_store.py:304-322 | no group of a reachable store carries an untrimmed name, so a sync of one can never be exact |
| GroupSync.TrailingSpaceNeverSyncs | relay/app/routers/oidc_auth.py:203-213 | an instance: the claim `app:eng ` creates the group `app:eng`, and no store ever meets the claim |
| GroupSyncRuns.RunKeepsSound | relay/app/routers/oidc_auth.py:187-226 | with any number of syncs interleaved call by call with each other and with every other store call, the store stays consistent and every pending call concerns a claimed name or a group that was once found |
| GroupSyncRuns.SyncTouchesOnly | relay/app/routers/oidc_auth.py:205-226 | in every run a call of a sync only creates one group of a claimed name, adds the user to one such group, or takes the user out of one unclaimed prefix group |
| GroupSyncRuns.SyncFailsExactlyWhen | relay/app/routers/oidc_auth.py:207-226 | in every run a call of a sync raises exactly when the claimed name is blank or not stored as claimed, the user is missing, or the group it had found or listed was deleted since |
| GroupSyncRuns.FoundIsThere | relay/app/routers/oidc_auth.py:207-221 | a group is there when a sync finds or lists it, so one that is missing at the next call was deleted in between |
| GroupSyncRuns.UndisturbedSyncIsExact | relay/app/routers/oidc_auth.py:187-226 | in every run a sync for an existing user with storable names, whose groups and edges nobody else touches, does not fail and ends with exactly the claimed prefix groups, whatever else happens in between |
| GroupSyncRuns.UndisturbedSyncCompletes | relay/app/routers/oidc_auth.py:187-226 | however far such a sync has come, its own calls bring it to the end, and then the user is in exactly the claimed prefix groups |
| GroupSyncRuns.DeletedGroupFailsTheSync | relay/app/routers/oidc_auth.py:219-221 | a run in which a group deleted between the listing and the lookup makes the sync fail |
| SsoLogin.TryCreate | relay/app/routers/oidc_auth.py:175-176 | creates and links a new account exactly when the subject and the name are non-empty and the name is free; otherwise no change |
| SsoLogin.TryCandidate | relay/app/routers/oidc_auth.py:173-183 | one turn of the loop: account made under this candidate, final error, or name taken and go on |
| SsoLogin.CreateUnderFreeName | relay/app/routers/oidc_auth.py:173-184 | the account gets the first free one of the 50 candidate names; fails exactly when there is none or the input is blank |
| SsoLogin.ResolveOrCreate | relay/app/routers/oidc_auth.py:160-184 | a linked subject gets its account and nothing changes; any other gets a brand-new linked account under the first free candidate, never an existing account; it fails exactly when the input is blank or all 50 candidates are taken, and so never with fewer than 50 accounts |
| SsoLogin.CandidateIs | relay/app/routers/oidc_auth.py:173-174 | the first candidate is the base, the i-th later one is base, hyphen and the decimal numeral (no leading zero) whose digits read i + 1 |
| SsoLogin.DecimalReads | relay/app/routers/oidc_auth.py:174 | the digits written for a number read back to it |
| SsoLogin.CandidatesDiffer | relay/app/routers/oidc_auth.py:173-176 | for every base that is not blank, no two attempts ask the store for the same stripped name |
| SsoLogin.TakenByDifferentAccounts | relay/app/routers/oidc_auth.py:173-183 | n taken candidates are the names of n different accounts |
| SsoLogin.FewAccountsNeverBlock | relay/app/routers/oidc_auth.py:173-184 | a login with a subject and a name finds a free candidate whenever there are fewer than 50 accounts |
| SsoLogin.LoginAlone | relay/app/routers/oidc_auth.py:160-184 | a callback of the interleaved machine that nobody interrupts ends as the uninterrupted login does: the linked account, a new one under the first free candidate, or a failure exactly when there is no name |
| SsoLogin.LoserAdopts | relay/app/routers/oidc_auth.py:177-183 | of two concurrent first logins of one subject the slower one, wherever it stands, gets the account of the faster one within two calls |
| SsoLogin.RunKeepsSound | relay/app/routers/oidc_auth.py:160-184 | with any number of callbacks interleaved call by call with any other store calls, finished logins hold linked accounts and no link leads to an account made by create_user |
| SsoLogin.OneAccountPerSubject | relay/app/routers/oidc_auth.py:160-184 | in every interleaving two finished logins got the same account exactly when they carried the same subject, and never one made by create_user |
| SsoLogin.LinksAreForever | accounts/sqlite_store.py:244-298 | a link is the same in every later state of every run |
| Frames.DeserializeSerialize | tunnel/frames.py:11-67 | serialising succeeds exactly up to 65536 bytes, and deserialising undoes it |
| Frames.WireLayout | tunnel/frames.py:11-32 | the wire format byte by byte: the type byte of each of the ten kinds, the 16 id bytes, the big-endian length, the payload |
| Frames.AcceptedExactlyWhen | tunnel/frames.py:35-67 | which byte strings are accepted, in terms of their bytes, and the error of each of the others |
| Frames.SerializeDeserialize | tunnel/frames.py:35-67 | an accepted byte string is the encoding of its frame exactly when it is within the size limit |
| Frames.ReceiverAcceptsOversize | tunnel/frames.py:59-64 | a byte string that is accepted although no sender can build it |
| Frames.EncodingIsUnique | tunnel/frames.py:35-67 | no two byte strings decode to the same frame |
| Frames.WsMessageSurvives | tunnel/ws_payload.py:27-56 | a WebSocket message keeps its kind (section 5.6 of RFC 6455) and bytes through encode, frame, deframe and decode exactly when it has at most 65535 bytes |
| Frames.MarkerLayout | tunnel/ws_payload.py:20-38 | marker 0x00 before text and 0x01 before binary messages |
| Frames.WsDecodeIsInverse | tunnel/ws_payload.py:41-56 | decoding accepts exactly the encodings, and re-encoding gives the payload back |
| TunnelMachine.StepKeepsSound | tunnel/connection.py:78-172 | every step keeps conservation, order and the bounds, for every stream ever opened |
| TunnelMachine.EveryRunConserves | tunnel/connection.py:78-172 | in every interleaving: taken, then queued, then in flight equals dispatched, in order; queues hold at most 64 and the table at most 100 |
| TunnelMachine.DrainedAfterClose | tunnel/connection.py:505-516 | a consumer that finds the queue empty after a closing frame has taken everything dispatched before it |
| TunnelMachine.TakenIsPrefix | tunnel/connection.py:452-516 | what was taken, and what would be taken next, is a prefix of what was dispatched |
| TunnelMachine.DispatchIsExact | tunnel/connection.py:144-172 | on an idle loop and a tabled id: CLOSE, CANCEL, ERROR and WS_CLOSE set the closed event and its first position, DATA and WS_DATA route the payload, the other kinds do nothing, and no other stream changes; an unknown id is dropped |
| TunnelMachine.TearDownIsExact | tunnel/connection.py:432-446 | a tear-down closes exactly the tabled streams, keeps their queues and empties the table; a second one does nothing |
| TunnelMachine.ClosedExactlyWhen | tunnel/connection.py:102-172 | over every run a stream is closed if and only if one of those four kinds was dispatched to it while it was tabled, or the connection was torn down then |
| TunnelMachine.ClosedStreamEnds | tunnel/connection.py:493-516 | whoever reads a closed stream can take all that is queued and then meets the end |
| TunnelMachine.LimitsAreExact | tunnel/connection.py:78-100 | 100 streams per connection, 64 payloads per queue, and the order of the two errors |
| TunnelConnection.Connection.OpenStream | tunnel/connection.py:78-100 | limit error first, then duplicate error, else a fresh stream object under the id |
| TunnelConnection.Connection.CloseStream | tunnel/connection.py:102-117 | only the event of that stream is set; the table entry stays; unknown ids are an error |
| TunnelConnection.Connection.RemoveStream | tunnel/connection.py:119-125 | only the table entry goes; consumers keep their object |
| TunnelConnection.Connection.DispatchFrame | tunnel/connection.py:144-172 | one dispatch step on the real objects: each of CLOSE, CANCEL, ERROR and WS_CLOSE sets the event of its stream, DATA and WS_DATA begin a put of their payload, the rest and unknown ids do nothing, and no other object changes |
| TunnelConnection.Connection.CompletePut | tunnel/connection.py:166-168 | the awaited put completes exactly when the queue has room |
| TunnelConnection.Connection.TakeFrom | tunnel/connection.py:493-514 | the oldest payload of that object only |
| TunnelConnection.Connection.CloseTabled | tunnel/connection.py:441-445 | the loop sets the event of exactly the tabled streams |
| TunnelConnection.Connection.CloseAll | tunnel/connection.py:432-446 | tear-down closes every stream that was tabled, empties the table, and does nothing the second time |
| Lanes.LaneOfInterleaving | tunnel/connection.py:349-367 | in any interleaving, whatever the other lanes carry, the frames of one request are those its sender sent, in order; for both directions |
| Lanes.LaneOfWire | tunnel/connection.py:355-367 | the same from bytes: serialised lanes, any of them incomplete or undecodable, interleaved and deserialised |
| RequestBody.BodySlicesAreFaithful | relay/app/routers/mount_proxy.py:249-258 | for any list of browser chunks every body frame is non-empty and at most 65536 bytes, and together they are the body |
| RequestBody.SlicesAreFull | relay/app/routers/mount_proxy.py:253-257 | every slice of a chunk but the last has exactly 65536 bytes |
| RequestBody.RequestLayout | relay/app/routers/mount_proxy.py:246-258 | a request on the wire: OPEN with the metadata, non-empty DATA frames of at most 65536 bytes that hold the whole body, one empty DATA frame, all with its id |
| RequestBody.SendChunk | relay/app/routers/mount_proxy.py:253-257 | the offset loop sends exactly the slices of the chunk, or exactly those before the send that failed |
| RequestBody.SendBody | relay/app/routers/mount_proxy.py:252-258 | the slices of all chunks, then the empty sentinel, or exactly the frames before the send that failed |
| RequestBody.SendRequest | relay/app/routers/mount_proxy.py:246-268 | 431 exactly for metadata over 16384 bytes and then nothing is sent; else OPEN, slices, sentinel, or 503 after exactly the frames before the send that failed |
| AgentBodies.StepKeepsReaders | agent/connection.py:109-139 | a handler only ever reads a stream that was opened for its own request |
| AgentBodies.TableChangesExactlyWhen | agent/proxy.py:74-87 | the agent takes a place in the stream table exactly for an OPEN or WS_OPEN while there is room, and gives it back exactly when the handler has taken the empty chunk, the bridge ends and removes it, or the connection goes down; an entry never moves to another stream |
| AgentBodies.BodyArrivesIntact | agent/proxy.py:72-87 | whatever else is on the wire and however loop, handlers and bridges interleave, also after a heartbeat tear-down with the loop still reading, a handler that finished holds exactly the concatenation of its own request's chunks |
| AgentProgress.StepKeepsCared | agent/connection.py:109-139 | every tabled stream has a handler or a bridge, or lost its bridge; a put on a full queue waits for one of these; handlers and bridges never read the same stream |
| AgentProgress.EveryBodyCompletes | agent/connection.py:119-124 | once the loop has read the request on a live connection, its handler has finished with the whole body or does so by its own steps alone |
| AgentProgress.StuckForever | agent/proxy.py:220-221 | a loop blocked on a full queue that nobody holds or will look up stays blocked in every run, tear-downs and what follows them included |
| AgentProgress.UnblockedExactlyWhen | tunnel/connection.py:165-168 | in every reachable live state a loop blocked on a full queue can be freed if and only if that stream's bridge has not ended; a request handler never leaves it blocked |
| AgentProgress.BodyArrivesInTheEnd | agent/proxy.py:72-87 | from any live state the agent's own tasks get the loop through the wire, to a message it must refuse, or (only if an ended bridge is in the way) stuck; on a wire that was read the request has its body |
| AgentProgress.EndedBridgeBlocksTheTunnel | agent/proxy.py:220-221 | a run in which a bridge that ends with 65 unread messages blocks the loop for good |
| AgentProgress.ConcurrentBodiesArrive | relay/app/routers/mount_proxy.py:244-258 | end to end for any set of concurrent requests, whole or cut short, next to any other traffic: slice, serialise, interleave in any way, deserialise, dispatch, join gives every handler its own body |
| AgentProgress.ConcurrentBodiesComplete | relay/app/routers/mount_proxy.py:244-258 | and a request that was sent whole gets there, from any live state, with the two exceptions above |
| ResponsePath.FrameKeepsFollows | tunnel/connection.py:165-172 | a frame of the response extends the stream by the next payload, and CLOSE comes after all of them |
| ResponsePath.TableChangesExactlyWhen | relay/app/routers/mount_proxy.py:244-387 | the relay takes a place in the stream table exactly for a fresh request or bridge below the limit, and gives it back exactly when the iterator ends, the request is given up and removed, the bridge ends, or the connection goes down |
| ResponsePath.NothingLeftBehind | tunnel/connection.py:505-516 | an iterator that ends after a closing frame has yielded the whole response |
| ResponsePath.ResponseArrivesIntact | relay/app/routers/mount_proxy.py:270-387 | in every interleaving with other requests and WebSocket bridges on the same tunnel the yielded frames are a prefix of the agent's body frames, and all of them once the iterator ended on a live connection |
| RelayProgress.StepKeepsCared | relay/app/routers/mount_proxy.py:244-387 | every tabled stream has a request or a bridge at work on it, or was left; a put on a full queue waits for one of these |
| RelayProgress.EveryResponseCompletes | relay/app/routers/mount_proxy.py:270-387 | once the loop has read the response on a live connection, a reader that was not abandoned ends with the metadata and exactly the body frames, by its own steps alone |
| RelayProgress.ClosedIterationEnds | tunnel/connection.py:493-516 | an iterator on a stream that is closed, by a frame or by a tear-down, comes to its end by its own steps |
| RelayProgress.DisconnectEndsReaders | tunnel/connection.py:432-446 | in every run, when the agent disconnects every request that was iterating comes to its end |
| RelayProgress.ClosedBridgeDrains | relay/app/routers/mount_proxy.py:490-542 | a bridge on a closed stream can read all that is queued and then sees the end |
| RelayProgress.PeerEndsBridge | relay/app/routers/mount_proxy.py:490-542 | a bridge whose peer sent WS_CLOSE reads what is queued and then sees the end |
| RelayProgress.StuckForever | relay/app/routers/mount_proxy.py:366-375 | a loop blocked on the full queue of a stream that was left stays blocked in every run |
| RelayProgress.UnblockedExactlyWhen | tunnel/connection.py:165-168 | in every reachable live state a loop blocked on a full queue can be freed if and only if neither the request nor the bridge has left that stream |
| RelayProgress.ResponseArrivesInTheEnd | relay/app/routers/mount_proxy.py:270-387 | from any live state the tasks that are there get the loop through the wire, to a message it cannot decode, or (only if a stream was left) stuck; on a wire that was read the response has arrived whole |
| RelayProgress.LeavingBrowserBlocksTheTunnel | relay/app/routers/mount_proxy.py:366-375 | a run in which the generator has passed one body frame on, 65 more arrive unread, the browser leaves, and the loop is blocked for good |
| BodyDelivery.SendResponse | agent/proxy.py:93-111 | complete exactly when metadata and chunks fit a frame, and then metadata, the non-empty chunks, CLOSE; otherwise exactly the payloads before the first that does not fit went out |
| BodyDelivery.NonEmptyKeepsBytes | agent/proxy.py:103-105 | skipping empty chunks loses no byte |
| BodyDelivery.ResponseLayout | agent/proxy.py:93-111 | a response on the wire: DATA with the metadata, non-empty DATA frames that hold the whole body, one CLOSE, all with its id |
| BodyDelivery.StreamBody | relay/app/routers/mount_proxy.py:366-375 | the forwarding loop passes on the frames before the first at which the browser had left |
| BodyDelivery.BufferUpToCap | relay/app/routers/mount_proxy.py:310-319 | stops at the first frame that exceeds the cap, and the buffer is what the iterator has given out |
| BodyDelivery.PlainBody | relay/app/routers/mount_proxy.py:366-387 | the streamed delivery as a function of the yielded frames |
| BodyDelivery.HtmlBody | relay/app/routers/mount_proxy.py:305-364 | a body of at most 5 MiB comes out whole: if the codec decodes it, as the encoding of the text with the prefix before exactly the matched slashes, and unchanged if it does not decode; a larger one is replayed and resumed |
| BodyDelivery.HtmlDeliveryIs | relay/app/routers/mount_proxy.py:305-364 | the over-cap path is taken exactly for bodies over 5242880 bytes and gives out a prefix of the frames, all of them if the browser stays; within the cap the page is the text with the prefix before the matched slashes, or the body where it does not decode |
| BodyDelivery.BodyRewriteIsIdempotent | relay/app/services/html_rewriter.py:57-77 | rewriting a body twice is rewriting it once, undecodable and oversized bodies included, if the charset can carry the rewritten text |
| BodyDelivery.StayingBrowserGetsAll | relay/app/routers/mount_proxy.py:305-387 | a browser that stays gets, for HTML within the cap that decodes, the text with the prefix before exactly the matched slashes, and every other body unchanged |
| BodyDelivery.PageDecodes | relay/app/services/html_rewriter.py:57-77 | if the charset reads the rewritten text back, the delivered bytes decode to the text with the prefix inserted; what is not HTML, over the cap or rejected by the codec is delivered as it is |
| BodyDelivery.StreamedIsPrefix | relay/app/routers/mount_proxy.py:341-375 | whatever the browser does, a streamed delivery is a prefix of the bytes |
| BodyDelivery.DeliveredBytesAreTheBody | relay/app/routers/mount_proxy.py:270-387 | end to end for any number of concurrent responses and any other traffic: agent chunks, framing, interleaved wire, decoding, dispatch, iteration, and plain, rewritten or over-cap delivery give a browser that stayed exactly the body (rewritten within the cap), and at any time a prefix of it |
| BodyDelivery.ResponsesGetThere | relay/app/routers/mount_proxy.py:270-387 | and from any live state a response that was sent whole gets there, unless a message does not decode or the loop is stuck behind a stream that was left |
| MountRegistry.SqliteMountRegistry.Register | relay/app/services/sqlite_registry.py:186-212 | a fresh ONLINE row without a warning flag or an owner; the map changes only for a real connection |
| MountRegistry.SqliteMountRegistry.Deregister | relay/app/services/sqlite_registry.py:214-227 | afterwards neither the table nor the map has the code; a missing code is an error without change |
| MountRegistry.SqliteMountRegistry.GetConnection | relay/app/services/sqlite_registry.py:229-262 | the open connection of an ONLINE row; otherwise exactly which error: not found, offline, expired, no tunnel, or offline for a connection that was torn down |
| MountRegistry.SqliteMountRegistry.MarkOffline | relay/app/services/sqlite_registry.py:264-289 | ONLINE goes to OFFLINE and loses its connection; every other status is left alone |
| MountRegistry.SqliteMountRegistry.Expire | relay/app/services/sqlite_registry.py:291-314 | any status goes to EXPIRED and the connection leaves the map |
| MountRegistry.SqliteMountRegistry.MarkTtlWarned | relay/app/services/sqlite_registry.py:316-332 | only the flag changes |
| MountRegistry.SqliteMountRegistry.TryReclaim | relay/app/services/sqlite_registry.py:385-424 | only an OFFLINE, unexpired row of the same address; the deadline is kept and the whole seconds left are reported |
| MountRegistry.SqliteMountRegistry.TryReclaimAsOwner | relay/app/services/sqlite_registry.py:437-476 | the same for the owner from any address |
| MountRegistry.SqliteMountRegistry.DeleteExpiredBefore | relay/app/services/sqlite_registry.py:426-435 | exactly the EXPIRED rows with a deadline before the cutoff go |
| MountRegistry.SqliteMountRegistry.SetOwner | relay/app/services/sqlite_registry.py:478-513 | only the owner of an existing row changes |
| MountRegistry.SqliteMountRegistry.StartupCleanup | relay/app/services/sqlite_registry.py:668-694 | the three statements in order equal one row-wise restart with an empty map |
| MountRegistry.EveryRunAgrees | relay/app/services/sqlite_registry.py:186-476 | over every run, restarts included, only ONLINE rows have a connection and only open ones are handed out |
| MountRegistry.RevivedOnlyByRegister | relay/app/services/sqlite_registry.py:186-476 | an EXPIRED row changes status in a call exactly when that call registers its code |
| MountRegistry.RestartIsExact | relay/app/services/sqlite_registry.py:668-694 | no row is ONLINE after a restart, a row is EXPIRED exactly when it was or is overdue, only rows past retention go, all else survives |
| MountRegistry.ReclaimReportsTimeLeft | relay/app/services/sqlite_registry.py:405-424 | a reclaim succeeds exactly for an entitled caller of an OFFLINE unexpired row, reports the whole seconds left and never a negative number, and keeps the deadline |
| MountRegistry.OtherMountsUntouched | relay/app/services/sqlite_registry.py:186-476 | every call leaves the row and the connection of every other mount alone |
| MountRegistry.StatusChangesExactlyWhen | relay/app/services/sqlite_registry.py:186-476 | for each target status, exactly which calls move a row into it |
| MountRegistry.RowFieldsKept | relay/app/services/sqlite_registry.py:186-476 | a row that survives a call other than its own registration keeps address, creation time and deadline; flag and owner change only by their own calls |
| MountRegistry.RegisterAnswersForItself | relay/app/services/sqlite_registry.py:205-212 | get_connection answers for what a registration stored exactly when it brings a connection or finds none in the map |
| MountRegistry.LatestIsAnsweredExactlyWhen | relay/app/services/sqlite_registry.py:186-476 | over every run get_connection answers for the latest registration or reclaim of each ONLINE mount if and only if no registration without a connection hit a code that had one |
| MountRegistry.LocalRegistrationKeepsOldConnection | relay/app/services/sqlite_registry.py:211-212 | a run in which it hands out the connection of an earlier registration |
| MountLifecycle.SweepOnce | relay/app/services/ttl_sweep.py:30-61 | a sweep nobody interrupts: the loop over the snapshot, in any order and with any failing sends, marks and expire calls, equals one sweep of the table; the warnings sent are exactly the due ones with the time left |
| MountLifecycle.SweepMount | relay/app/services/ttl_sweep.py:34-57 | one record: expire and close, warn and flag, or leave alone; a failed send or mark leaves the flag unset, a failed mark does not unsend the warning |
| MountLifecycle.SweepIsExact | relay/app/services/ttl_sweep.py:30-61 | a sweep nobody interrupts, row by row: an ONLINE row at or past its deadline is EXPIRED and loses its connection unless its expire call failed; one within the window is marked unless send or mark failed; EXPIRED rows more than 21600 seconds past their deadline go; all else is as it was |
| MountLifecycle.SweepClosesExactly | relay/app/services/ttl_sweep.py:40-44 | a sweep adds no row and closes exactly the connections of the mounts it expires |
| MountLifecycle.AgentWebsocket | relay/app/routers/agent_ws.py:281-335 | reserved code refused, owner reclaim before address reclaim, preferred code only if free, TTL capped: the handler's calls without interference equal one admission |
| MountLifecycle.AdmissionIsExact | relay/app/routers/agent_ws.py:281-335 | the reserved code is refused; an OFFLINE unexpired mount of the agent's owner or address is taken over with its deadline and the whole seconds left; every other agent gets a new row that lives for the smaller of the asked and the greatest TTL, under the code it asks for if no row has it, else under a generated one |
| MountInterleaving.StepKeepsSound | relay/app/routers/agent_ws.py:281-404 | with every registry call of every handler and of the sweep a step, and tear-downs, cancellations and restarts anywhere, map, rows, deadlines, pending admissions and the books of warnings stay in agreement |
| MountInterleaving.EveryRunIsSound | relay/app/services/sqlite_registry.py:229-262 | over every such run get_connection returns only the open connection stored by the latest registration or reclaim, every agent mount's expires_at is within created_at plus the cap, and all but at most one of a registration's warnings were not followed by their mark |
| MountInterleaving.SweepCallIsExact | relay/app/services/ttl_sweep.py:33-61 | whoever interferes, a call of the sweep expires exactly the mount of the overdue record it comes to, deletes exactly the rows past retention, and otherwise changes no row but its flag |
| MountInterleaving.EarlyExpiryExactlyWhen | relay/app/services/ttl_sweep.py:31-43 | in every run a mount is expired before its deadline if and only if the expire call hits a registration later than the one the snapshot showed, whose deadline is ahead |
| MountInterleaving.CompletedSweepIsExact | relay/app/services/ttl_sweep.py:30-61 | in every run, when a sweep is over: no EXPIRED row is past 6 hours, and a row whose deadline was past when it started, and that is not OFFLINE, is ONLINE if and only if its expire call raised, or it was registered after the snapshot (then with no lifetime) and not hit |
| MountInterleaving.LeavingTakesDownAnotherExactlyWhen | relay/app/routers/agent_ws.py:397-404 | in every run a leaving handler's mark_offline drops another handler's connection if and only if the code was registered or reclaimed after this handler stored its own |
| MountInterleaving.HangUpAlone | relay/app/routers/agent_ws.py:393-404 | a handler that hangs up undisturbed: its connection is no longer handed out for any code, an ONLINE row of its code goes OFFLINE as it was, and no other row changes |
| MountInterleaving.TornDownForever | relay/app/services/sqlite_registry.py:252-262 | a connection that was given up is never handed out again in any later state of any run |
| MountInterleaving.RebootIsExact | relay/app/services/sqlite_registry.py:668-694 | after a restart there is no handler, no connection and no agent mount ONLINE, and the local mount is there without a deadline |
| MountInterleaving.StoresCountStores | relay/app/routers/agent_ws.py:285-317 | the count behind that condition goes up exactly when a handler registers or reclaims the code |
| MountInterleaving.SentCountsSends | relay/app/services/ttl_sweep.py:46-50 | the books count exactly the warnings that go out |
| MountInterleaving.SecondWarningExactlyWhen | relay/app/services/ttl_sweep.py:46-53 | in every run a warning that goes out is a second one for its registration if and only if an earlier send was not followed by its mark; it announces 0 < remaining <= window |
| MountInterleaving.UnmarkedIsWarned | relay/app/services/ttl_sweep.py:46-53 | an ONLINE mount in the window whose flag is not set is warned by the sweep that starts now |
| MountInterleaving.ReconnectingNeverBuysTime | relay/app/routers/agent_ws.py:281-321 | over any interleaved chain of disconnects, reclaims, sweeps and restarts within a registration the deadline is the same, and reported lifetimes never grow and never go negative |
| MountInterleaving.RevivedExactlyWhen | relay/app/routers/agent_ws.py:298-317 | an EXPIRED row leaves EXPIRED exactly at the register call of an admission whose has_mount answered before that row was inserted |
| MountInterleaving.ExpiredUntilDeleted | relay/app/routers/agent_ws.py:294-317 | in every run without such a call an EXPIRED row stays EXPIRED until it is deleted |
| MountRaces.AdmissionAlone | relay/app/routers/agent_ws.py:281-335 | left alone, the calls of a handler add up to the uninterrupted admission |
| MountRaces.SweepAlone | relay/app/services/ttl_sweep.py:30-61 | left alone, the calls of a sweep add up to the uninterrupted sweep, whatever raises and in any order |
| MountRaces.AdmissionRaceRevives | relay/app/routers/agent_ws.py:298-317 | a run of two admissions and a sweep that brings an expired mount back |
| MountRaces.RestartWarnsTwice | relay/app/services/ttl_sweep.py:46-53 | a run with a restart between send and mark in which one registration is warned twice |
| MountRaces.StaleSnapshotExpiresEarly | relay/app/services/ttl_sweep.py:31-43 | a run in which a mount registered for a minute is expired at once, because the snapshot showed the registration before it |
| MountRaces.LateRegistrationStaysOverdue | relay/app/services/ttl_sweep.py:30-61 | a run in which a mount registered after the snapshot for no time at all is ONLINE and overdue when the sweep is over |
| MountRaces.LeavingTakesDownTheOther | relay/app/services/sqlite_registry.py:264-289 | a run in which the first of two racing handlers hangs up and takes the other's open mount OFFLINE |
| ShareLinks.ShareLinkService.constructor | server/app/services/share_service.py:94-103 | row by row, the cache becomes exactly the table |
| ShareLinks.ShareLinkService.CreateLink | server/app/services/share_service.py:114-134 | cache and table get the same record under the token |
| ShareLinks.ShareLinkService.ValidateToken | server/app/services/share_service.py:145-166 | the three outcomes; an expired link leaves cache and table together |
| ShareLinks.ShareLinkService.RevokeLink | server/app/services/share_service.py:175-184 | the link leaves cache and table together, or is not found and nothing changes |
| ShareLinks.ShareLinkService.Partition | server/app/services/share_service.py:194-209 | the loop splits the cache into exactly the live links and the stale tokens |
| ShareLinks.ShareLinkService.ForgetAll | server/app/services/share_service.py:211-218 | exactly these tokens leave cache and table |
| ShareLinks.ShareLinkService.ListActiveLinks | server/app/services/share_service.py:193-220 | the live links, the stale ones forgotten |
| ShareLinks.RunRefines | server/app/services/share_service.py:96-220 | over every run the cache equals the table, holds only latest links, and leaves out only those too old for good |
| ShareLinks.RestartIsUnobservable | server/app/services/share_service.py:96-103 | a restart at any point of any run changes nothing |
| ShareLinks.ValidatesExactlyWhen | server/app/services/share_service.py:145-166 | a token validates exactly when its latest creation is after its latest revocation and its age in whole seconds is between 0 and that creation's TTL, and yields the shared path; a token without such a creation is refused as revoked, and only links that are too old as expired |
| ShareLinks.ListsExactlyTheValid | server/app/services/share_service.py:193-220 | listing returns exactly the links that would validate |
| HtmlRewriter.RewriteSettles | relay/app/services/html_rewriter.py:27-41 | after rewriting the pattern matches nowhere |
| HtmlRewriter.IdempotentExactlyWhen | relay/app/services/html_rewriter.py:22-41 | idempotent on every document exactly when the prefix with its slash holds no match |
| HtmlRewriter.MountRewriteIsIdempotent | relay/app/services/html_rewriter.py:27-41 | for every document and every code without `=`: idempotent, and every absolute src/href path in the output starts with /m/ |
| HtmlRewriter.QuotedCodeIsNotIdempotent | relay/app/services/html_rewriter.py:41 | an instance: with the code `src="` some document is changed again by a second rewrite |
| HtmlRewriter.RewriteOnlyInserts | relay/app/services/html_rewriter.py:22-41 | the scan equals the position-by-position reference: the prefix before exactly the matched slashes, and nothing else changes |
| HtmlRewriter.SettledEverywhere | relay/app/services/html_rewriter.py:22 | "matches nowhere" in terms of every position |
| HtmlRewriter.MatchesExactlyWhen | relay/app/services/html_rewriter.py:22 | the pattern spelled out: src or href, equals sign, either quote, a slash, and not /m/ |
| AllowEntry.FieldsAreExact | agent/auth.py:48-53 | a spec splits into at most one triple: first colon, last colon, anything in between |
| AllowEntry.ParseIsExact | agent/auth.py:37-69 | parsing accepts exactly the specs of the grammar and yields the entry they spell |
| AllowEntry.ErrorsAreExact | agent/auth.py:48-69 | which complaint a rejected spec gets: malformed exactly with fewer than two colons, then empty reference, unknown type, unknown role |
| AllowEntry.ParsePrint | agent/auth.py:37-69 | parsing a printed entry gives it back with its reference stripped, or the empty-reference error |
| AllowEntry.RoundTripExactlyWhen | agent/auth.py:37-69 | the round trip is exact precisely for trimmed, non-empty references, whatever colons they hold |
| AllowEntry.ParsePrintParse | agent/auth.py:37-69 | parse, print, parse equals parse |

## Left out

- The React client, Jinja pages, QR codes, network detection, the command line and logging: user interface and I/O.
- bcrypt, HMAC, OIDC HTTP calls, JSON and aiosqlite: foreign code. OPEN metadata is an opaque payload, and whether it parses is a free choice of the model.
- Signed tokens are the injective pair of path and whole second; the bad-signature branch of the share links does not arise, and signing and recording take one clock reading.
- Text encoding: a text WebSocket message is its encoded bytes; the codec of a declared charset is a pair of arbitrary functions, and how the charset is read from the content type is left out.
- The substitution template of the rewriter: a prefix is inserted literally, so prefixes with a backslash are not covered.
- Interleavings inside one store, registry or share-link call: each is one step. SSO account creation, group syncs, admissions and sweeps are split at every call, the tunnel at every await.
- User activity flags, creation times of accounts and quotas; row ids are natural numbers (a negative id names no row), and the base user name of an SSO login is an arbitrary string.
- SetOwner: keeps only the owner of `set_owner_policy`; access mode, password flag, policy rows and identity secrets are not in the registry model, and the access decision takes the policy as an argument.
- The per-IP mount cap and the rate limits: the cap is checked before the handshake and holds only for serialised admissions.
- Generated mount codes are assumed fresh.
- Scheduling: that the receive loop and the handlers are eventually run is not modelled; the completion theorems say that their own steps suffice. Time-outs, heartbeats and browser disconnects are steps that may happen at any time.
- Streams left behind after CANCEL or tear-down: `open_stream` does not consult the closed flag, so the model promises no clean-up there; the heartbeat that tears a blocked tunnel down is a step that may happen at any time.
- httpx re-chunking of response bodies: any list of chunks is allowed.
- Floating point: times are real numbers.
- Storage quotas, file TTL bookkeeping, path resolution, clipboard, file requests, back-off and cookies: small services or operating-system effects.
