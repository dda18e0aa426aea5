/**
  Chat message relay (`send_msg`): deliver to a local client, forward along the
  routing table toward the receiver's server, or start a route discovery and
  retry later. Relaying never changes the node state.
 */
module Relay {
  import opened Types
  import Routing
  import Clients

  /** How `send_msg` disposes of a message, decided from the directory, the
      local sessions and the routing table alone. */
  datatype Disposition =
    | Drop                                    // receiver unknown
    | Deliver(sock: SocketInfo)               // receiver is a local client
    | Discover(sid: NodeId)                   // no route to its server yet
    | Stuck(sid: NodeId)                      // route pending: the source indexes None
    | Forward(next: SocketInfo)               // resolved route: hand to the next hop

  /** The decision, as an independent reference for `SendMsg`. */
  function Dispose(s: State, receiver: UserId): Disposition {
    if receiver !in s.systemUsers then Drop
    else if receiver in s.myClients then Deliver(s.myClients[receiver].sock)
    else
      var sid := s.systemUsers[receiver].sid;
      if sid !in s.routTable then Discover(sid)
      else if s.routTable[sid].Pending? then Stuck(sid)
      else Forward(s.routTable[sid].next)
  }

  /** `send_msg`. */
  function SendMsg(s: State, sender: UserId, receiver: UserId, text: string): (r: Step)
    // relaying never touches the state
    ensures r.Next? ==> r.st == s
    // an unknown receiver is silently dropped, including a late retry
    ensures receiver !in s.systemUsers ==> r == Next(s, [])
    // a local receiver gets the message unchanged, directly
    ensures receiver in s.systemUsers && receiver in s.myClients ==>
      r == Next(s, [Send(Message(sender, receiver, text), s.myClients[receiver].sock)])
    ensures receiver in s.systemUsers && receiver !in s.myClients ==>
      var sid := s.systemUsers[receiver].sid;
      // no route yet: query every neighbour, retry after MsgResendMs
      && (sid !in s.routTable ==>
            && r.Next?
            && |r.out| == |s.nbs| + 1
            && (forall i :: 0 <= i < |s.nbs| ==> r.out[i] == Send(CountHops(sid, s.myPort), s.nbs[i]))
            && r.out[|s.nbs|] == Schedule(SendMessage(sender, receiver, text), MsgResendMs))
      // a pending route is indexed like a tuple and raises
      && (sid in s.routTable && s.routTable[sid].Pending? ==> r == Crash([], PendingRouteUsed(sid)))
      // a resolved route: one datagram to the next hop
      && (sid in s.routTable && s.routTable[sid].Resolved? ==>
            r == Next(s, [Send(Message(sender, receiver, text), s.routTable[sid].next)]))
  {
    if receiver in s.systemUsers then
      if receiver in s.myClients then
        Next(s, [Send(Message(sender, receiver, text), s.myClients[receiver].sock)])
      else
        var sid := s.systemUsers[receiver].sid;
        if sid !in s.routTable then
          Next(s, Routing.FindRoute(s, sid) + [Schedule(SendMessage(sender, receiver, text), MsgResendMs)])
        else
          match s.routTable[sid]
          case Pending => Crash([], PendingRouteUsed(sid))
          case Resolved(_, next) => Next(s, [Send(Message(sender, receiver, text), next)])
    else Next(s, [])
  }

  /** `SendMsg` agrees with the reference decision in every case: a message
      leaves the node, whole, exactly toward the place `Dispose` names. */
  lemma SendMsgDisposes(s: State, sender: UserId, receiver: UserId, text: string)
    ensures var r := SendMsg(s, sender, receiver, text);
      match Dispose(s, receiver)
      case Drop => r == Next(s, [])
      case Deliver(sock) => r == Next(s, [Send(Message(sender, receiver, text), sock)])
      case Discover(sid) =>
        r == Next(s, Routing.FindRoute(s, sid) + [Schedule(SendMessage(sender, receiver, text), MsgResendMs)])
      case Stuck(sid) => r == Crash([], PendingRouteUsed(sid))
      case Forward(next) => r == Next(s, [Send(Message(sender, receiver, text), next)])
  {
  }

  /** Every datagram a relay step emits either carries the original message
      unchanged or is a route query for the receiver's server; nothing is
      addressed to anyone but a local client, a neighbour or a next hop. */
  lemma SendMsgKeepsText(s: State, sender: UserId, receiver: UserId, text: string)
    requires SendMsg(s, sender, receiver, text).Next?
    ensures var out := SendMsg(s, sender, receiver, text).out;
      forall i :: 0 <= i < |out| && out[i].Send? ==>
        || (out[i].msg == Message(sender, receiver, text)
            && receiver in s.myClients && out[i].to == s.myClients[receiver].sock)
        || (out[i].msg == Message(sender, receiver, text)
            && receiver in s.systemUsers && receiver !in s.myClients
            && s.systemUsers[receiver].sid in s.routTable
            && s.routTable[s.systemUsers[receiver].sid] == Resolved(s.routTable[s.systemUsers[receiver].sid].hops, out[i].to))
        || (receiver in s.systemUsers && out[i].msg == CountHops(s.systemUsers[receiver].sid, s.myPort)
            && out[i].to in s.nbs)
  {
  }

  /** A message whose route is unknown is retried, and once a neighbour's
      `HopsFrom` answer has been relaxed into the table the retry is forwarded
      to that neighbour. */
  lemma {:induction false} RetryForwardsAfterAnswer(s: State, sender: UserId, receiver: UserId, text: string,
                                                    from: SocketInfo, hops: int)
    requires receiver in s.systemUsers && receiver !in s.myClients
    requires s.systemUsers[receiver].sid !in s.routTable
    ensures var first := SendMsg(s, sender, receiver, text);
      first.Next? && Schedule(SendMessage(sender, receiver, text), MsgResendMs) in first.out
    ensures var s1 := Routing.UpdateHops(s, from, s.systemUsers[receiver].sid, hops).st;
      SendMsg(s1, sender, receiver, text) == Next(s1, [Send(Message(sender, receiver, text), from)])
  {
    var sid := s.systemUsers[receiver].sid;
    var first := SendMsg(s, sender, receiver, text);
    assert first.out[|s.nbs|] == Schedule(SendMessage(sender, receiver, text), MsgResendMs);
    assert Routing.Improves(s.routTable, sid, hops);
  }

  /** The retry loop ends once the receiver has left the directory: a message
      queued for retry while its route is unknown is dropped without a trace
      when the receiver's `DelSystemUserInfo` arrives before the retry. */
  lemma RetryEndsWhenUserGone(s: State, sender: UserId, receiver: UserId, text: string)
    requires receiver in s.systemUsers && receiver !in s.myClients
    requires s.systemUsers[receiver].sid !in s.routTable
    ensures Schedule(SendMessage(sender, receiver, text), MsgResendMs) in SendMsg(s, sender, receiver, text).out
    ensures var s1 := Clients.DelSystemUser(s, receiver).st;
      SendMsg(s1, sender, receiver, text) == Next(s1, [])
  {
    var first := SendMsg(s, sender, receiver, text);
    assert first.out[|s.nbs|] == Schedule(SendMessage(sender, receiver, text), MsgResendMs);
  }

  /** A query for another node's routes that arrives before our own message
      marks the route pending, and the message then raises instead of being
      queued for retry. */
  lemma {:induction false} PendingQueryThenMessageCrashes(s: State, asker: SocketInfo, sender: UserId,
                                                          receiver: UserId, text: string)
    requires receiver in s.systemUsers && receiver !in s.myClients
    requires s.systemUsers[receiver].sid !in s.routTable
    ensures var sid := s.systemUsers[receiver].sid;
      var s1 := Routing.ReturnHops(s, asker, sid).st;
      SendMsg(s1, sender, receiver, text) == Crash([], PendingRouteUsed(sid))
  {
    var sid := s.systemUsers[receiver].sid;
    var s1 := Routing.ReturnHops(s, asker, sid).st;
    assert s1.routTable[sid] == Pending;
  }
}
