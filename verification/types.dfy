/**
  The data model of a PyPoly server node: the identifiers, records, wire
  messages, processor events and the node state that every handler reads and
  rewrites. Outbound traffic is abstract: a handler returns the datagrams it
  would send and the timer events it would arm, in the order the source does.
 */
module Types {

  datatype Option<T> = None | Some(value: T)

  /** The outcome of an operation that the source lets raise an exception. */
  datatype Result<T, E> = Ok(value: T) | Err(error: E)

  /** Identifiers and timestamps are unbounded integers (Python ints). */
  type NodeId = int
  type UserId = int
  type Millis = int

  /** Timer and liveness constants, in milliseconds. */
  const MsgResendMs: Millis := 500
  const ServDiscoveryMs: Millis := 5000
  const ClientDiscoveryMs: Millis := 5000
  const ClientMaxAliveMs: Millis := 10000
  const ServMaxAliveMs: Millis := 20000
  const UsersDiscoveryMs: Millis := 2000
  const UsersMaxAliveMs: Millis := 8000

  const Loopback: string := "127.0.0.1"

  /** A UDP endpoint. */
  datatype SocketInfo = SocketInfo(addr: string, port: int)

  /** A client directly connected to this node. */
  datatype ClientInfo = ClientInfo(uid: UserId, name: string, sock: SocketInfo, lastAlive: Millis)

  /** An entry of the system-wide user directory; `sid` is the owning server. */
  datatype SystemUserInfo = SystemUserInfo(uid: UserId, name: string, sid: NodeId, lastAlive: Millis)

  /** A routing-table entry; a missing key means "never looked for". */
  datatype RouteEntry =
    | Pending                                  // discovery issued, no answer yet
    | Resolved(hops: int, next: SocketInfo)    // hop count and next-hop endpoint

  /** The wire messages the server sends. Snapshot rows are carried as the
      map the receiver parses them into. */
  datatype Msg =
    | GetKnownServers(port: int)
    | GetKnownUsers(port: int)
    | KnownServers(servers: map<NodeId, Millis>)
    | KnownUsers(users: map<UserId, SystemUserInfo>)
    | Ping
    | Connected
    | NewSystemUserInfo(uid: UserId, name: string, sid: NodeId)
    | DelSystemUserInfo(uid: UserId)
    | CountHops(sid: NodeId, port: int)
    | HopsFrom(sid: NodeId, hops: int, port: int)
    | Message(sender: UserId, receiver: UserId, text: string)
    | UserList(names: map<UserId, string>)

  /** The events the processor loop dispatches on. */
  datatype Event =
    | ServerDiscovery
    | ClientDiscovery
    | UserDiscovery
    | SendKnownServers(peer: SocketInfo)
    | SendKnownUsers(peer: SocketInfo)
    | MergeKnownServers(servers: map<NodeId, Millis>)
    | MergeKnownUsers(users: map<UserId, SystemUserInfo>)
    | RemoveInactiveServers
    | RemoveInactiveClients
    | RemoveInactiveUsers
    | AddNewClient(client: ClientInfo)
    | ClientAlive(uid: UserId)
    | NewSystemUser(info: SystemUserInfo)
    | DelSystemUser(uid: UserId)
    | ReturnHops(from: SocketInfo, sid: NodeId)
    | UpdateHops(from: SocketInfo, sid: NodeId, hops: int)
    | SendMessage(sender: UserId, receiver: UserId, text: string)
    | SendUserList(dest: SocketInfo)

  /** One effect of a handler: a datagram, or a one-shot timer that re-enqueues
      an event after a delay. */
  datatype Output =
    | Send(msg: Msg, to: SocketInfo)
    | Schedule(ev: Event, delayMs: Millis)

  /** The exceptions a handler can raise; any of them ends the processor thread. */
  datatype Fault =
    | MissingClient(uid: UserId)              // KeyError on my_clients
    | MissingDirectoryEntry(uid: UserId)      // KeyError on system_users
    | PendingRouteUsed(sid: NodeId)           // TypeError: indexing a pending (None) route

  /** The state owned by the processor. `clientOrder` is the insertion order of
      `myClients`, which is the order Python iterates that dict in. */
  datatype State = State(
    myId: NodeId,
    myPort: int,
    nbs: seq<SocketInfo>,
    knownServers: map<NodeId, Millis>,
    myClients: map<UserId, ClientInfo>,
    clientOrder: seq<UserId>,
    systemUsers: map<UserId, SystemUserInfo>,
    routTable: map<NodeId, RouteEntry>)

  /** The result of handling one event: the next state and what was sent, or a
      fault together with what had been sent before it was raised. */
  datatype Step =
    | Next(st: State, out: seq<Output>)
    | Crash(out: seq<Output>, fault: Fault)

  function Max(a: int, b: int): (m: int)
    ensures m >= a && m >= b
    ensures m == a || m == b
  {
    if a >= b then a else b
  }

  /** No element occurs twice. */
  predicate Distinct<T(==)>(xs: seq<T>) {
    forall i, j :: 0 <= i < j < |xs| ==> xs[i] != xs[j]
  }

  /** `clientOrder` lists every local client id exactly once. */
  predicate WellFormed(s: State) {
    && Distinct(s.clientOrder)
    && (forall i :: 0 <= i < |s.clientOrder| ==> s.clientOrder[i] in s.myClients)
    && (forall c :: c in s.myClients ==> c in s.clientOrder)
  }

  /** Every local client has a directory entry owned by this node. */
  predicate Mirrored(s: State) {
    forall c :: c in s.myClients ==> c in s.systemUsers && s.systemUsers[c].sid == s.myId
  }

  /** The routing table holding only the self entry. */
  function SelfRoute(myId: NodeId, myPort: int): (rt: map<NodeId, RouteEntry>)
    ensures rt.Keys == {myId}
    ensures rt[myId].Resolved? && rt[myId].hops == 0
  {
    map[myId := Resolved(0, SocketInfo(Loopback, myPort))]
  }

  /** One datagram carrying `msg` to every neighbour, in list order. */
  function Flood(msg: Msg, nbs: seq<SocketInfo>): (out: seq<Output>)
    ensures |out| == |nbs|
    ensures forall i :: 0 <= i < |nbs| ==> out[i] == Send(msg, nbs[i])
  {
    seq(|nbs|, i requires 0 <= i < |nbs| => Send(msg, nbs[i]))
  }

  /** The position of the first id in `order` without a directory entry, or
      `|order|` when every id has one. */
  function FirstUnlisted(order: seq<UserId>, users: map<UserId, SystemUserInfo>): (k: nat)
    ensures k <= |order|
    ensures forall j :: 0 <= j < k ==> order[j] in users
    ensures k < |order| ==> order[k] !in users
  {
    if order == [] then 0
    else if order[0] !in users then 0
    else 1 + FirstUnlisted(order[1..], users)
  }

  /** Concatenation regroups freely. */
  lemma ConcatAssoc<T>(x: seq<T>, y: seq<T>, z: seq<T>)
    ensures x + (y + z) == (x + y) + z
  {
  }

  /** Some element of a non-empty set. */
  lemma Pick<T>(todo: set<T>) returns (x: T)
    requires todo != {}
    ensures x in todo
  {
    x :| x in todo;
  }
}
