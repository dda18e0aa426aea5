# PyPoly server node, modelled in Dafny

PyPoly is a chat backend made of server nodes that form a mesh over UDP.
Each node keeps four tables, all owned by one processor thread:
- `known_servers`: the peer servers it has heard of, with a last-alive stamp each.
- `my_clients`: the clients connected to it directly.
- `system_users`: the directory of every user in the mesh, with the server that owns each.
- `rout_table`: a distance-vector routing table toward other servers.

The processor drains an event queue. Each event runs one handler. A handler
rewrites the tables, sends datagrams, and may arm a one-shot timer that puts
an event back on the queue later.

This project models that processor as pure functions. Each handler is
`(State, now, input) → Step`. A step is one of:
- `Next(st, out)`: the new state plus the outputs, in order. An output is a
  datagram `Send(msg, to)` or a timer `Schedule(ev, delayMs)`.
- `Crash(out, fault)`: the handler raises. Python then ends the processor
  thread. `out` holds what was sent before the exception.

The model is split into six modules:
- `Types` (`types.dfy`): the records, wire messages, events and node state.
  - `clientOrder` records the insertion order of `my_clients`. That is the order Python iterates the dict in.
  - `WellFormed` says that `clientOrder` lists each local client exactly once.
  - `Mirrored` says that every local client has a directory entry owned by this node.
- `Config` (`config.dfy`): `SocketInfo.from_str` and the line filtering of `load_config`.
  - Python's `rstrip`, `split(':')` and `int()` are written out.
  - `rstrip` drops every `str.isspace` character. `int()` strips a smaller
    set: C's `isspace` characters plus the non-ASCII spaces, so U+001C to
    U+001F are kept and then rejected (`IntSpace`).
- `Gossip` (`gossip.dfy`): server and user discovery, and the snapshot replies.
  - Merging received snapshots.
  - The server and user liveness sweeps.
- `Routing` (`routing.dfy`): `clear_rout_table`, `find_route`, `return_hops` and `update_hops`.
  - `update_hops` is Bellman-Ford relaxation with a pending marker.
- `Clients` (`clients.dfy`): sessions of directly connected clients, and the directory notices from peers.
- `Relay` (`relay.dfy`): `send_msg`.
- `Processor` (`processor.dfy`): the start-up of `process` and the dispatch of one event.

The source indexes a dict without checking the key in several places. Each
of these becomes a `Crash` step:
- `client_alive` for an id that is not a local client raises KeyError, for
  example on a `Pong` that arrives after the client was swept.
- `send_known_users` and `remove_inactive_users` raise KeyError for a local
  client with no directory entry, and `remove_inactive_clients` for an expired
  local client with no directory entry.
- `send_msg` to a server whose route is pending raises TypeError. The code
  indexes the `None` marker as a tuple.

The invariant these lines rely on is `Mirrored`: every local client has a
directory entry. Every handler except `del_system_user` preserves it.
`del_system_user` breaks it whenever a peer's `DelSystemUserInfo` names one of
our own clients. `Processor.ForeignDeleteOfLocalClient` shows the next sweep
then crashing.

Some behaviours of the code are easy to miss; the model keeps them:
- `send_msg` raises TypeError when the receiver's route is pending
  (`PyPoly/pypoly_server.py:413`), instead of waiting for the answer.
- `update_hops` accepts an answer for a destination it never asked about, and
  stores it like any other.
- `find_route` called from `send_msg` does not mark the route pending, so each
  500 ms retry floods `CountHops` to every neighbour again. Only `return_hops`
  uses the pending marker to suppress a repeated query.
- A peer's `DelSystemUserInfo` can delete a local client's directory entry
  while its session stays, as above.

## Model

| member | source | states |
|---|---|---|
| Config.RStrip | PyPoly/pypoly_server.py:473 | The result is a prefix of the line, does not end in white space, and everything dropped is white space in Python's sense. |
| Config.TrimEnd | PyPoly/pypoly_server.py:473 | For any set of blank characters, the result is a prefix of the text, does not end in a blank, and everything dropped is blank. |
| Config.TrimStart | PyPoly/pypoly_server.py:24 | For any set of blank characters, the result is a suffix of the text, does not start with a blank, and everything dropped is blank (the leading strip inside `int()`, with `int()`'s own white space). |
| Config.TrimEndPad | PyPoly/pypoly_server.py:473 | Blanks appended to a text that does not end in one are exactly what the trailing strip removes. |
| Config.TrimStartPad | PyPoly/pypoly_server.py:24 | Blanks put before a text that does not start with one are exactly what the leading strip removes. |
| Config.Split | PyPoly/pypoly_server.py:23 | Splitting on ':' always yields at least one part, and no part contains ':'. |
| Config.JoinSplit | PyPoly/pypoly_server.py:23 | Re-joining the parts of a split with ':' gives back the original text, so splitting loses nothing. |
| Config.SplitJoin | PyPoly/pypoly_server.py:23 | Splitting a ':'-join of colon-free parts gives back exactly those parts. |
| Config.ParseIntToString | PyPoly/pypoly_server.py:24 | `int()` reads back every integer that `str()` writes, negatives included. |
| Config.ParseIntPadding | PyPoly/pypoly_server.py:24 | Surrounding a text that neither starts nor ends in `int()`'s white space with such white space does not change what `int()` reads, whether a number or a rejection. |
| Config.ParseIntRejects | PyPoly/pypoly_server.py:24 | `int()` rejects any text holding a character that is not its white space, a sign, a digit or `_`; in particular U+001C to U+001F anywhere make it reject. |
| Config.FromStr | PyPoly/pypoly_server.py:22-25 | A line parses iff it has exactly one ':' and the text after it is an integer literal. The address is then all the text before the ':', and the port is the value `int()` gives the text after it. |
| Config.FromStrOfParts | PyPoly/pypoly_server.py:22-25 | Conversely, a colon-free address, a ':' and any colon-free text that `int()` accepts (its white space, a sign and underscores included) parse as that address and that integer. |
| Config.SeparatorPortRejected | PyPoly/pypoly_server.py:22-25 | The line `h:` followed by U+001C and `5` does not parse, because `int()` does not strip U+001C. |
| Config.FromStrToStr | PyPoly/pypoly_server.py:22-25 | Any endpoint whose address has no ':' survives being written as `address:port` and read back. |
| Config.NonBlank | PyPoly/pypoly_server.py:472-474 | Every kept line is non-empty and has no trailing white space, there are no more kept lines than input lines, and every line with text is kept, right-stripped. |
| Config.NonBlankLine | PyPoly/pypoly_server.py:472-474 | A single line is kept, right-stripped, exactly when its right-stripped text is non-empty. |
| Config.NonBlankAppend | PyPoly/pypoly_server.py:472-474 | The kept lines of two runs of lines are the kept lines of the first run followed by those of the second. With `NonBlankLine` this fixes the result as every line with text, right-stripped, in file order. |
| Config.LoadConfig | PyPoly/pypoly_server.py:470-475 | Loading succeeds iff every kept line parses; on success there is one neighbour per kept line, in file order, each the parse of its line. |
| Config.LoadConfigRender | PyPoly/pypoly_server.py:470-475 | A neighbour list written one `address:port` per line loads back as the same list. |
| Gossip.ServerDiscovery | PyPoly/pypoly_server.py:231-237 | One `GetKnownServers` carrying our port goes to each neighbour in list order, then the sweep re-arms after 5000 ms; the state is unchanged. |
| Gossip.UserDiscovery | PyPoly/pypoly_server.py:248-254 | One `GetKnownUsers` goes to each neighbour, then the sweep re-arms after 2000 ms; the state is unchanged. |
| Gossip.RefreshLocal | PyPoly/pypoly_server.py:270-272 | It raises KeyError iff some local client has no directory entry, naming the first such client in `clientOrder`. Otherwise the directory keeps its ids, each local client's entry is stamped `now` and the others are unchanged. The same loop heads `remove_inactive_users`. |
| Gossip.SendKnownServers | PyPoly/pypoly_server.py:257-266 | Our own stamp becomes `now`, every other stamp is kept, and the asker gets a single snapshot equal to the updated membership. |
| Gossip.SendKnownUsers | PyPoly/pypoly_server.py:269-284 | It raises iff some local client has no directory entry, with the KeyError for the first such client in `clientOrder` and nothing sent. Otherwise each local client's entry gets stamp `now` with the rest unchanged, other entries are untouched, and the asker gets the refreshed directory. |
| Gossip.MergeKnownServers | PyPoly/pypoly_server.py:287-294 | The ids become the union of both sides. A known stamp becomes the max of the two, so it never decreases. An unknown id takes the remote stamp. Any new id resets routing to the self entry; otherwise routing is untouched. Nothing is sent. |
| Gossip.MergeKnownServersLoop | PyPoly/pypoly_server.py:287-294 | The source's loop, one id at a time with a routing reset at each new id, in any visiting order, ends in the same state as `MergeKnownServers`. |
| Gossip.MergeKnownServersIdempotent | PyPoly/pypoly_server.py:287-294 | Merging the same snapshot a second time changes nothing. |
| Gossip.MergeKnownServersCommute | PyPoly/pypoly_server.py:287-294 | Two snapshots merged in either order give the same membership. |
| Gossip.MergeKnownUsers | PyPoly/pypoly_server.py:297-304 | Entries the sender claims for our own id are ignored. Unknown users are inserted as given. Known users keep the max stamp. No entry is removed, and nothing is sent. |
| Gossip.MergeKnownUsersLoop | PyPoly/pypoly_server.py:297-304 | The source's one-id-at-a-time loop, in any order, ends in the same state as `MergeKnownUsers`. |
| Gossip.MergeKnownUsersIdempotent | PyPoly/pypoly_server.py:297-304 | Merging the same user snapshot twice is the same as merging it once. |
| Gossip.RemoveInactiveServers | PyPoly/pypoly_server.py:307-315 | This node is always kept, stamped `now`. Exactly the peers silent at most 20000 ms survive, with their stamps. Dropping any peer resets routing; otherwise routing is untouched. The sweep re-arms. |
| Gossip.RemoveInactiveUsers | PyPoly/pypoly_server.py:333-342 | It raises iff a local client has no directory entry, with the KeyError for the first such client in `clientOrder` and nothing sent. Otherwise a local client's entry is never removed and is stamped `now`, exactly the non-local users silent at most 8000 ms survive unchanged, peers are told nothing, and the sweep re-arms. |
| Gossip.RemoveInactiveServersIdempotent | PyPoly/pypoly_server.py:307-315 | A second server sweep at the same instant keeps the membership and routing, and only re-arms the timer. |
| Gossip.RemoveInactiveUsersIdempotent | PyPoly/pypoly_server.py:333-342 | On a well-formed, mirrored node a directory sweep never raises, and a second sweep at the same instant gives the same state and output. |
| Gossip.ServersSnapshotSpreads | PyPoly/pypoly_server.py:257-294 | Once a peer merges our membership snapshot, it knows every server we know plus ourselves, stamps us no earlier than `now`, and holds no stamp older than the snapshot's. |
| Gossip.UsersSnapshotSpreads | PyPoly/pypoly_server.py:269-304 | On a mirrored node the snapshot is sent without raising. A peer merging it then holds every user it does not own, no older than in the snapshot, and our local clients are stamped no earlier than `now`. |
| Routing.ClearRoutTable | PyPoly/pypoly_server.py:453-455 | The table holds only the self entry, `(0, 127.0.0.1:my_port)`, and nothing else in the state changes. |
| Routing.FindRoute | PyPoly/pypoly_server.py:417-423 | One `CountHops(sid, my_port)` goes to each neighbour, in order. |
| Routing.ReturnHops | PyPoly/pypoly_server.py:426-438 | Absent: mark pending and flood the query. Pending: nothing happens. Resolved: one `HopsFrom` with the stored count goes back to the asker, and the table is unchanged. |
| Routing.UpdateHops | PyPoly/pypoly_server.py:441-450 | The entry is replaced by `(hops+1, from)`, and `HopsFrom(sid, hops+1)` flooded, exactly when the entry is absent, pending, or longer than `hops+1`; otherwise nothing changes and nothing is sent. |
| Routing.UpdateHopsMonotone | PyPoly/pypoly_server.py:441-450 | A resolved entry stays resolved and its hop count never grows; entries for other destinations are untouched. |
| Routing.UpdateHopsKeepsShorter | PyPoly/pypoly_server.py:441-450 | The stored count becomes the shorter of the old path and the announced one, and the next hop changes only on a strict improvement. |
| Routing.ReturnHopsFloodsOnce | PyPoly/pypoly_server.py:426-438 | A second query for the same destination, while the first is outstanding, floods nothing. |
| Routing.SelfEntryStable | PyPoly/pypoly_server.py:441-455 | With a non-negative announced distance the self entry `(0, …)` is never replaced. |
| Routing.RelaxNonIncreasing | PyPoly/pypoly_server.py:441-450 | Over any run of `HopsFrom` answers for one destination, the hop count never increases and ends at most one more than the best answer seen. |
| Routing.RelaxResolves | PyPoly/pypoly_server.py:441-450 | After any non-empty run of answers, the destination is resolved, whatever it was before. |
| Clients.AddNewClient | PyPoly/pypoly_server.py:345-362 | The client is stored in the sessions and mirrored in the directory as ours, with the same stamp. It gets one `Connected`, and each neighbour gets one `NewSystemUserInfo`. A new id goes last in `clientOrder` and a re-used id keeps its place, as in a Python dict. Well-formedness and mirroring are kept. |
| Clients.ClientAlive | PyPoly/pypoly_server.py:365-367 | It raises KeyError iff the id is not a local client. Otherwise only that client's stamp changes, to `now`. |
| Clients.ClientDiscovery | PyPoly/pypoly_server.py:240-245 | One `Ping` goes to each local client's socket, in dict order, then the sweep re-arms after 5000 ms. |
| Clients.Select | PyPoly/pypoly_server.py:320-321 | The result holds exactly the ids of the order whose client is (or is not) expired, and stays duplicate-free. |
| Clients.SelectAppend | PyPoly/pypoly_server.py:320-321 | Selecting from two runs of the order is selecting from the first run, then from the second. With `SelectOne` this fixes the selection as the chosen ids in dict order. |
| Clients.SelectOne | PyPoly/pypoly_server.py:320-321 | A single id is selected exactly when its expiry matches the one asked for. |
| Clients.DelFloods | PyPoly/pypoly_server.py:325-329 | There is one notice per removed client per neighbour. |
| Clients.DelFloodsOnly | PyPoly/pypoly_server.py:325-329 | The flood holds nothing but `DelSystemUserInfo` notices for removed clients, each sent to a neighbour. |
| Clients.DelFloodsAt | PyPoly/pypoly_server.py:325-329 | Removal notice number `i·|nbs|+j` tells neighbour `j` that client `i` is gone, so each removal reaches each neighbour exactly once. |
| Clients.FirstLost | PyPoly/pypoly_server.py:320-324 | The result is the first position, in dict order, of an expired client with no directory entry, or the length of the order if there is none. |
| Clients.PruneFrom | PyPoly/pypoly_server.py:320-329 | Walking the ids in order: it raises iff some id is an expired client with no directory entry. It raises at the first such id, after the notices for the expired clients before it. Otherwise exactly the expired clients leave both tables, the rest is unchanged, and the notices go out in order. |
| Clients.RemoveInactiveClients | PyPoly/pypoly_server.py:318-330 | Raises iff an expired local client lacks a directory entry, at the first such client in dict order. Otherwise exactly the clients silent more than 10000 ms leave the sessions and the directory, and survivors are unchanged. One `DelSystemUserInfo` per removed client goes to each neighbour. The surviving ids keep their dict order, which is the next ping order. Well-formedness and mirroring are kept, and the sweep re-arms. |
| Clients.AliveClientSurvives | PyPoly/pypoly_server.py:318-330 | A client that answered a ping at `now` survives a sweep at `now`, with its directory entry. |
| Clients.LatePongCrashes | PyPoly/pypoly_server.py:365-367 | Once a client has been swept as expired, a later `Pong` from it raises KeyError. |
| Clients.NewSystemUser | PyPoly/pypoly_server.py:370-380 | Only a new id is stored, and then re-flooded to every neighbour. A known id changes nothing and sends nothing. |
| Clients.DelSystemUser | PyPoly/pypoly_server.py:383-391 | Only a present id is deleted, and then re-flooded. An absent id changes nothing. The local sessions are not consulted. |
| Clients.NewSystemUserIdempotent | PyPoly/pypoly_server.py:370-380 | A repeated `NewSystemUserInfo` changes nothing and floods nothing. |
| Clients.DelSystemUserIdempotent | PyPoly/pypoly_server.py:383-391 | A repeated `DelSystemUserInfo` changes nothing and floods nothing. |
| Clients.SendUserList | PyPoly/pypoly_server.py:458-466 | The asker gets one list that maps every directory id to its name, and nothing else. |
| Clients.NewThenDelRestores | PyPoly/pypoly_server.py:370-391 | A notice for an unknown user followed by its removal notice gives back the original state. |
| Clients.SelectNoneExpired | PyPoly/pypoly_server.py:320-321 | With no expired client in the order, nothing is selected for removal and every id survives, in order. |
| Clients.SweepQuiet | PyPoly/pypoly_server.py:318-330 | On a well-formed, mirrored node with no expired client, a sweep changes nothing, sends nothing and re-arms. |
| Clients.RemoveInactiveClientsIdempotent | PyPoly/pypoly_server.py:318-330 | On a well-formed, mirrored node a sweep never raises, and a second sweep at the same instant changes nothing and only re-arms. |
| Clients.ExpiredClientAnnounced | PyPoly/pypoly_server.py:318-330 | A client past its timeout leaves both the sessions and the directory, and every neighbour is told of the removal. |
| Clients.ClientRoundTrip | PyPoly/pypoly_server.py:345-362 | A client that connects and then falls silent is removed by the next sweep past its timeout, from both tables, with a removal notice to every neighbour. |
| Relay.SendMsg | PyPoly/pypoly_server.py:394-414 | An unknown receiver is dropped. A local receiver gets the message unchanged. With no route, `CountHops` is flooded and the same send is retried after 500 ms. A pending route raises TypeError. A resolved route gets the message to its next hop. The state is never changed. |
| Relay.SendMsgDisposes | PyPoly/pypoly_server.py:394-414 | `SendMsg` agrees in every case with the decision `Dispose` makes from the directory, sessions and table alone. |
| Relay.SendMsgKeepsText | PyPoly/pypoly_server.py:394-423 | Every datagram sent either carries the original message unchanged to the receiver's own socket when it is a local client, or carries it unchanged to the next hop of a resolved route to the receiver's server, or is a route query for that server sent to a neighbour. |
| Relay.RetryForwardsAfterAnswer | PyPoly/pypoly_server.py:404-413 | A message with no route is scheduled for retry. Once a neighbour's answer has been relaxed into the table, the retry goes to that neighbour. |
| Relay.RetryEndsWhenUserGone | PyPoly/pypoly_server.py:394-415 | A message to a receiver whose route is unknown is queued for retry, and if the receiver's `DelSystemUserInfo` is handled first, the retry is dropped without output. |
| Relay.PendingQueryThenMessageCrashes | PyPoly/pypoly_server.py:404-413 | A peer's query that marks a route pending, followed by our own message over that route, raises. |
| Processor.Initial | PyPoly/pypoly_server.py:78-85 | The state at import carries the given id, port and neighbour list, knows only itself, and is well-formed and mirrored. |
| Processor.Process | PyPoly/pypoly_server.py:183-220 | Dispatch never changes the node's id, port or neighbour list. |
| Processor.ProcessFaults | PyPoly/pypoly_server.py:183-220 | A step raises exactly under `Faulty`: a `Pong` from a stranger, a local client without a directory entry where one is refreshed or deleted, or a message over a pending route. |
| Processor.ProcessWellFormed | PyPoly/pypoly_server.py:183-220 | Every handler keeps `clientOrder` an exact listing of the sessions. |
| Processor.ProcessRearms | PyPoly/pypoly_server.py:231-342 | Every periodic sweep's last output re-arms that same sweep after its period. |
| Processor.MirroredPreserved | PyPoly/pypoly_server.py:183-220 | Every handler except `del_system_user` keeps each local client mirrored in the directory as ours. |
| Processor.MirroredNoDirectoryFault | PyPoly/pypoly_server.py:269-336 | While every local client is mirrored, no handler can hit a missing directory entry. |
| Processor.ForeignDeleteOfLocalClient | PyPoly/pypoly_server.py:383-391 | A peer's `DelSystemUserInfo` for one of our clients breaks mirroring. The next `remove_inactive_users` or `send_known_users` then raises. |
| Processor.ConnectedClientReachable | PyPoly/pypoly_server.py:345-403 | Right after connecting, a message for the client goes straight to its socket, and its `Pong` is accepted. |
| Processor.TwoNodeDelivery | PyPoly/pypoly_server.py:394-450 | On two neighbouring nodes, a message to a user on the other node crosses one discovery round and is delivered unchanged. The round is `CountHops`, then `HopsFrom(2, 0)`, then the route `(1, via node 2)`, then forward and local delivery. |
| Processor.QuietSweeps | PyPoly/pypoly_server.py:307-342 | On a node with no clients and no peers, the three sweeps only refresh our own stamp and re-arm. |
| Processor.Start | PyPoly/pypoly_server.py:163-176 | After start-up the node keeps the given id, port and neighbour list, is well-formed and mirrored, knows only itself (stamped `now`), and holds only the self route. |
| Processor.StartEmits | PyPoly/pypoly_server.py:168-176 | Start-up sends, in order: the server query to each neighbour, two timers, the user query to each neighbour, then the four remaining timers. |
| Processor.StartArmsEveryTimer | PyPoly/pypoly_server.py:168-176 | Start-up arms each of the six periodic sweeps with its own period. |
| Processor.StartQueriesNeighbours | PyPoly/pypoly_server.py:168-176 | Start-up asks every neighbour for its servers and for its users. |

## Left out

- The UDP sockets and the `listener` receive loop are left out. They are I/O. Outbound traffic is the abstract `out` list of each step, and inbound datagrams are the events they are queued as.
- The protobuf encoding in `rolypoly_pb2` is not part of this model. Snapshot messages carry the map their receiver parses them into. The order of rows on the wire and the width of protobuf integer fields are not modelled.
- The `parse_*` helpers are left out. They only copy message fields into records.
- The queue, the threads and `signal` are left out. `threading.Timer` appears only as a `Schedule(ev, delay)` output.
- The `None` shutdown sentinel and `main` are left out.
- `millitime()` is left out. Each handler takes one `now` parameter. The source reads the clock twice in `remove_inactive_servers`; the model uses the same `now` for both reads.
- `print` logging is left out.
- `argparse` and the file reading in `load_config` are left out. `load_config` takes the lines of the file.
- `Config.ParseInt` only accepts ASCII digits. Python's `int()` also accepts other Unicode decimal digits.
- `Config.ParseInt` has no limit on the number of digits. From CPython 3.11, and the 3.7.14, 3.8.14, 3.9.14 and 3.10.7 security releases, `int()` raises ValueError for a decimal literal of more than 4300 digits by default, so such a port line makes `from_str` raise and `load_config` abort. The limit depends on the interpreter version and can be changed by `PYTHONINTMAXSTRDIGITS`, `-X int_max_str_digits` or `sys.set_int_max_str_digits`, none of which the program fixes.
- `Config.NonBlank`: the file's lines are given already split. Python's universal-newline translation is not modelled.
- The client program `pypoly_client.py` is not part of this model. It is a GUI front end.
- An `Event` whose kind is not recognised raises NotImplementedError in `process`. It cannot arise here, because `Event` is a closed datatype.
- `Clients.DelFloods`: its own contract gives only the number of notices. Their contents and positions are stated by `DelFloodsOnly` and `DelFloodsAt`.
- `Clients.Select`: its own contract gives the selected ids but not their order. The order is stated by `SelectAppend` and `SelectOne`.
- `Processor.Process`: its contract only says that the fixed fields are kept. Its error cases, well-formedness and re-arming are stated by `ProcessFaults`, `ProcessWellFormed` and `ProcessRearms`.
- A handler that raises part-way has already mutated some Python state. The model drops that state, because the processor thread ends with the exception and no later event is handled.
