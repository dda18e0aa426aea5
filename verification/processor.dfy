/**
  The processor thread: start-up and the event dispatch loop of `process`.
  Each event is handled by one handler; a handler that raises ends the
  thread, which the model reports as a `Crash` step.
 */
module Processor {
  import opened Types
  import Routing
  import Gossip
  import Clients
  import Relay

  /** The state at import time: this node knows only itself. */
  function Initial(myId: NodeId, stamp: Millis, myPort: int, nbs: seq<SocketInfo>): (s: State)
    ensures s.myId == myId && s.myPort == myPort && s.nbs == nbs
    ensures WellFormed(s) && Mirrored(s)
    ensures s.knownServers == map[myId := stamp]
    ensures s.myClients == map[] && s.systemUsers == map[] && s.routTable == map[]
  {
    State(myId, myPort, nbs, map[myId := stamp], map[], [], map[], map[])
  }

  /** The condition under which handling `ev` raises, stated apart from the
      handlers: a `Pong` from a stranger, a local client missing from the
      directory where its entry is refreshed or deleted, or a message whose
      route is still pending. */
  ghost predicate Faulty(s: State, now: Millis, ev: Event) {
    match ev
    case ClientAlive(uid) => uid !in s.myClients
    case SendKnownUsers(_) => exists c :: c in s.myClients && c !in s.systemUsers
    case RemoveInactiveUsers => exists c :: c in s.myClients && c !in s.systemUsers
    case RemoveInactiveClients => exists c :: Clients.Lost(s, c, now)
    case SendMessage(_, receiver, _) => Relay.Dispose(s, receiver).Stuck?
    case _ => false
  }

  /** The timer period of the events that re-arm themselves. */
  function Period(ev: Event): (d: Option<Millis>)
    ensures d.Some? ==> d.value > 0
  {
    match ev
    case ServerDiscovery => Some(ServDiscoveryMs)
    case ClientDiscovery => Some(ClientDiscoveryMs)
    case UserDiscovery => Some(UsersDiscoveryMs)
    case RemoveInactiveServers => Some(ServDiscoveryMs)
    case RemoveInactiveClients => Some(ClientDiscoveryMs)
    case RemoveInactiveUsers => Some(UsersDiscoveryMs)
    case _ => None
  }

  /** One iteration of the dispatch loop of `process`, at time `now`. */
  function Process(s: State, now: Millis, ev: Event): (r: Step)
    requires WellFormed(s)
    // identity, port and neighbour list are fixed for the node's life
    ensures r.Next? ==> r.st.myId == s.myId && r.st.myPort == s.myPort && r.st.nbs == s.nbs
  {
    match ev
    case ServerDiscovery => Gossip.ServerDiscovery(s)
    case ClientDiscovery => Clients.ClientDiscovery(s)
    case UserDiscovery => Gossip.UserDiscovery(s)
    case SendKnownServers(peer) => Gossip.SendKnownServers(s, now, peer)
    case SendKnownUsers(peer) => Gossip.SendKnownUsers(s, now, peer)
    case MergeKnownServers(servers) => Gossip.MergeKnownServers(s, servers)
    case MergeKnownUsers(users) => Gossip.MergeKnownUsers(s, users)
    case RemoveInactiveServers => Gossip.RemoveInactiveServers(s, now)
    case RemoveInactiveClients => Clients.RemoveInactiveClients(s, now)
    case RemoveInactiveUsers => Gossip.RemoveInactiveUsers(s, now)
    case AddNewClient(client) => Clients.AddNewClient(s, client)
    case ClientAlive(uid) => Clients.ClientAlive(s, now, uid)
    case NewSystemUser(info) => Clients.NewSystemUser(s, info)
    case DelSystemUser(uid) => Clients.DelSystemUser(s, uid)
    case ReturnHops(from, sid) => Routing.ReturnHops(s, from, sid)
    case UpdateHops(from, sid, hops) => Routing.UpdateHops(s, from, sid, hops)
    case SendMessage(sender, receiver, text) => Relay.SendMsg(s, sender, receiver, text)
    case SendUserList(dest) => Clients.SendUserList(s, dest)
  }

  /** A step raises exactly under `Faulty`. */
  lemma ProcessFaults(s: State, now: Millis, ev: Event)
    requires WellFormed(s)
    ensures Process(s, now, ev).Crash? <==> Faulty(s, now, ev)
  {
    if ev.SendMessage? {
      Relay.SendMsgDisposes(s, ev.sender, ev.receiver, ev.text);
    }
  }

  /** Every handler keeps `clientOrder` an exact listing of the sessions. */
  lemma ProcessWellFormed(s: State, now: Millis, ev: Event)
    requires WellFormed(s)
    requires Process(s, now, ev).Next?
    ensures WellFormed(Process(s, now, ev).st)
  {
  }

  /** A periodic event puts itself back on the queue after its period, as the
      last thing its handler does. */
  lemma ProcessRearms(s: State, now: Millis, ev: Event)
    requires WellFormed(s)
    requires Process(s, now, ev).Next? && Period(ev).Some?
    ensures var out := Process(s, now, ev).out;
      |out| > 0 && out[|out| - 1] == Schedule(ev, Period(ev).value)
  {
  }

  /** Every handler but `del_system_user` keeps each local client mirrored
      in the directory as owned by this node. */
  lemma MirroredPreserved(s: State, now: Millis, ev: Event)
    requires WellFormed(s) && Mirrored(s)
    requires !ev.DelSystemUser?
    requires Process(s, now, ev).Next?
    ensures Mirrored(Process(s, now, ev).st)
  {
  }

  /** While every local client is mirrored, no handler can hit a missing
      directory entry. */
  lemma MirroredNoDirectoryFault(s: State, now: Millis, ev: Event)
    requires WellFormed(s) && Mirrored(s)
    ensures var r := Process(s, now, ev);
      r.Crash? ==> !r.fault.MissingDirectoryEntry?
  {
    match ev
    case RemoveInactiveClients =>
      assert forall c :: !Clients.Lost(s, c, now);
    case _ =>
  }

  /** A `DelSystemUserInfo` naming one of our own clients (the client moved
      to another server under the same id, and that server's notice of the
      old entry's removal reached us) deletes its mirror while the session
      stays; the next `remove_inactive_users` then raises KeyError. */
  lemma {:induction false} ForeignDeleteOfLocalClient(s: State, c: UserId, now: Millis)
    requires WellFormed(s) && Mirrored(s)
    requires c in s.myClients
    ensures var s1 := Clients.DelSystemUser(s, c).st;
      && !Mirrored(s1)
      && WellFormed(s1)
      && Process(s1, now, Event.RemoveInactiveUsers).Crash?
      && Process(s1, now, Event.SendKnownUsers(SocketInfo(Loopback, s.myPort))).Crash?
  {
    var s1 := Clients.DelSystemUser(s, c).st;
    assert c in s1.myClients && c !in s1.systemUsers;
  }

  /** A freshly connected client is reachable at once: a message for it is
      handed straight to its socket, and its first `Pong` is accepted. */
  lemma ConnectedClientReachable(s: State, now: Millis, ci: ClientInfo, sender: UserId, text: string)
    requires WellFormed(s)
    ensures var s1 := Process(s, now, Event.AddNewClient(ci)).st;
      && WellFormed(s1)
      && Process(s1, now, Event.SendMessage(sender, ci.uid, text))
         == Next(s1, [Send(Message(sender, ci.uid, text), ci.sock)])
      && Process(s1, now, Event.ClientAlive(ci.uid)).Next?
  {
  }

  /** Two neighbouring servers: node 1 knows user 7 lives on node 2, where
      user 7 is connected. A message for 7 from node 1 goes through one route
      discovery round and reaches the client unchanged:
      1 floods `CountHops`, 2 answers `HopsFrom(2, 0)`, 1 installs the route
      `(1 hop, via 2)` and forwards the retried message, 2 delivers it. */
  lemma {:induction false} TwoNodeDelivery(now: Millis)
    ensures
      var sockA := SocketInfo("10.0.0.1", 5001);
      var sockB := SocketInfo("10.0.0.2", 5002);
      var sockBob := SocketInfo("10.0.0.7", 6000);
      var bob := SystemUserInfo(7, "bob", 2, now);
      var a := State(1, 5001, [sockB], map[1 := now, 2 := now], map[], [], map[7 := bob], SelfRoute(1, 5001));
      var b := State(2, 5002, [sockA], map[1 := now, 2 := now],
                     map[7 := ClientInfo(7, "bob", sockBob, now)], [7], map[7 := bob], SelfRoute(2, 5002));
      var send := Event.SendMessage(3, 7, "hi");
      var a1 := Process(a, now, send);
      var b1 := Process(b, now, Event.ReturnHops(sockA, 2));
      var a2 := Process(a1.st, now, Event.UpdateHops(sockB, 2, 0));
      var a3 := Process(a2.st, now, send);
      var b2 := Process(b1.st, now, Event.SendMessage(3, 7, "hi"));
      && a1 == Next(a, [Send(CountHops(2, 5001), sockB), Schedule(send, MsgResendMs)])
      && b1 == Next(b, [Send(HopsFrom(2, 0, 5002), sockA)])
      && a2.Next? && a2.st.routTable[2] == Resolved(1, sockB)
      && a3 == Next(a2.st, [Send(Message(3, 7, "hi"), sockB)])
      && b2 == Next(b, [Send(Message(3, 7, "hi"), sockBob)])
  {
    var sockA := SocketInfo("10.0.0.1", 5001);
    var sockB := SocketInfo("10.0.0.2", 5002);
    var sockBob := SocketInfo("10.0.0.7", 6000);
    var bob := SystemUserInfo(7, "bob", 2, now);
    var a := State(1, 5001, [sockB], map[1 := now, 2 := now], map[], [], map[7 := bob], SelfRoute(1, 5001));
    var send := Event.SendMessage(3, 7, "hi");
    var a1 := Process(a, now, send);
    assert 2 !in a.routTable;
    assert Routing.FindRoute(a, 2) == [Send(CountHops(2, 5001), sockB)];
    var a2 := Process(a1.st, now, Event.UpdateHops(sockB, 2, 0));
    assert a2.st.routTable[2] == Resolved(1, sockB);
    assert a2.st.systemUsers == a.systemUsers && a2.st.myClients == map[];
  }

  /** On a node with no clients and no other known server the three sweeps
      change nothing but this node's own stamp, and only re-arm. */
  lemma QuietSweeps(s: State, now: Millis)
    requires s.myClients == map[] && s.clientOrder == [] && s.systemUsers == map[]
    requires s.knownServers.Keys == {s.myId}
    ensures var s1 := s.(knownServers := map[s.myId := now]);
      && Gossip.RemoveInactiveServers(s, now) == Next(s1, [Schedule(Event.RemoveInactiveServers, ServDiscoveryMs)])
      && Clients.RemoveInactiveClients(s1, now) == Next(s1, [Schedule(Event.RemoveInactiveClients, ClientDiscoveryMs)])
      && Gossip.RemoveInactiveUsers(s1, now) == Next(s1, [Schedule(Event.RemoveInactiveUsers, UsersDiscoveryMs)])
  {
    var s1 := s.(knownServers := map[s.myId := now]);
    assert forall sid :: !Gossip.Stale(s, now, sid);
    var d := Gossip.RemoveInactiveServers(s, now);
    assert d.st.knownServers == s1.knownServers;
    assert forall x :: !Clients.Lost(s1, x, now);
    var e := Clients.RemoveInactiveClients(s1, now);
    assert e.st.myClients == map[] && e.st.systemUsers == map[];
    assert Gossip.RemoveInactiveUsers(s1, now).st.systemUsers == map[];
  }

  /** `process` before its loop: reset routing, then run every periodic
      handler once, each arming its own timer. */
  function Start(myId: NodeId, stamp: Millis, myPort: int, nbs: seq<SocketInfo>, now: Millis): (r: Step)
    ensures r.Next? && WellFormed(r.st) && Mirrored(r.st)
    ensures r.st.myId == myId && r.st.myPort == myPort && r.st.nbs == nbs
    ensures r.st.knownServers == map[myId := now]
    ensures r.st.routTable == SelfRoute(myId, myPort)
    ensures r.st.myClients == map[] && r.st.systemUsers == map[]
  {
    var s0 := Routing.ClearRoutTable(Initial(myId, stamp, myPort, nbs));
    QuietSweeps(s0, now);
    var a := Gossip.ServerDiscovery(s0);
    var b := Clients.ClientDiscovery(s0);
    var c := Gossip.UserDiscovery(s0);
    var d := Gossip.RemoveInactiveServers(s0, now);
    var e := Clients.RemoveInactiveClients(d.st, now);
    var f := Gossip.RemoveInactiveUsers(e.st, now);
    Next(f.st, a.out + b.out + c.out + d.out + e.out + f.out)
  }

  /** The datagrams and timers of start-up, in order: the server query to
      every neighbour, two timers, the user query to every neighbour, then the
      four remaining timers. */
  function StartOutput(myPort: int, nbs: seq<SocketInfo>): seq<Output> {
    Flood(GetKnownServers(myPort), nbs)
    + [Schedule(Event.ServerDiscovery, ServDiscoveryMs), Schedule(Event.ClientDiscovery, ClientDiscoveryMs)]
    + Flood(GetKnownUsers(myPort), nbs)
    + [Schedule(Event.UserDiscovery, UsersDiscoveryMs),
       Schedule(Event.RemoveInactiveServers, ServDiscoveryMs),
       Schedule(Event.RemoveInactiveClients, ClientDiscoveryMs),
       Schedule(Event.RemoveInactiveUsers, UsersDiscoveryMs)]
  }

  lemma StartEmits(myId: NodeId, stamp: Millis, myPort: int, nbs: seq<SocketInfo>, now: Millis)
    ensures Start(myId, stamp, myPort, nbs, now).out == StartOutput(myPort, nbs)
  {
    var s0 := Routing.ClearRoutTable(Initial(myId, stamp, myPort, nbs));
    QuietSweeps(s0, now);
    assert Clients.ClientDiscovery(s0).out == [Schedule(Event.ClientDiscovery, ClientDiscoveryMs)];
  }

  /** Start-up arms each of the six periodic timers. */
  lemma {:induction false} StartArmsEveryTimer(myId: NodeId, stamp: Millis, myPort: int, nbs: seq<SocketInfo>,
                                               now: Millis)
    ensures forall ev :: Period(ev).Some? ==> Schedule(ev, Period(ev).value) in Start(myId, stamp, myPort, nbs, now).out
  {
    StartEmits(myId, stamp, myPort, nbs, now);
    var out := StartOutput(myPort, nbs);
    var n := |nbs|;
    forall ev | Period(ev).Some? ensures Schedule(ev, Period(ev).value) in out {
      match ev
      case ServerDiscovery => assert out[n] == Schedule(ev, ServDiscoveryMs);
      case ClientDiscovery => assert out[n + 1] == Schedule(ev, ClientDiscoveryMs);
      case UserDiscovery => assert out[2 * n + 2] == Schedule(ev, UsersDiscoveryMs);
      case RemoveInactiveServers => assert out[2 * n + 3] == Schedule(ev, ServDiscoveryMs);
      case RemoveInactiveClients => assert out[2 * n + 4] == Schedule(ev, ClientDiscoveryMs);
      case RemoveInactiveUsers => assert out[2 * n + 5] == Schedule(ev, UsersDiscoveryMs);
    }
  }

  /** Start-up asks every neighbour for its servers and for its users. */
  lemma {:induction false} StartQueriesNeighbours(myId: NodeId, stamp: Millis, myPort: int, nbs: seq<SocketInfo>,
                                                  now: Millis)
    ensures var out := Start(myId, stamp, myPort, nbs, now).out;
      forall i :: 0 <= i < |nbs| ==>
        Send(GetKnownServers(myPort), nbs[i]) in out && Send(GetKnownUsers(myPort), nbs[i]) in out
  {
    StartEmits(myId, stamp, myPort, nbs, now);
    var out := StartOutput(myPort, nbs);
    var n := |nbs|;
    forall i | 0 <= i < n
      ensures Send(GetKnownServers(myPort), nbs[i]) in out && Send(GetKnownUsers(myPort), nbs[i]) in out
    {
      assert out[i] == Send(GetKnownServers(myPort), nbs[i]);
      assert out[n + 2 + i] == Send(GetKnownUsers(myPort), nbs[i]);
    }
  }
}
