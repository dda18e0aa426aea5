/**
  Bookkeeping of directly connected clients and of directory notices from
  peers: `add_new_client`, `client_alive`, `client_discovery`,
  `remove_inactive_clients`, `new_system_user`, `del_system_user` and
  `send_user_list`.
 */
module Clients {
  import opened Types

  /** `add_new_client`: register the session and its directory mirror, greet
      the client and announce it to every neighbour. */
  function AddNewClient(s: State, ci: ClientInfo): (r: Step)
    ensures r.Next?
    ensures r.st == s.(myClients := r.st.myClients, clientOrder := r.st.clientOrder,
                       systemUsers := r.st.systemUsers)
    ensures r.st.myClients == s.myClients[ci.uid := ci]
    ensures r.st.systemUsers == s.systemUsers[ci.uid := SystemUserInfo(ci.uid, ci.name, s.myId, ci.lastAlive)]
    // a new id goes last in the dict's order; a re-used id keeps its place
    ensures ci.uid !in s.myClients ==> r.st.clientOrder == s.clientOrder + [ci.uid]
    ensures ci.uid in s.myClients ==> r.st.clientOrder == s.clientOrder
    ensures WellFormed(s) ==> WellFormed(r.st)
    ensures Mirrored(s) ==> Mirrored(r.st)
    ensures |r.out| == 1 + |s.nbs|
    ensures r.out[0] == Send(Connected, ci.sock)
    ensures forall i :: 0 <= i < |s.nbs| ==>
      r.out[1 + i] == Send(NewSystemUserInfo(ci.uid, ci.name, s.myId), s.nbs[i])
  {
    // a re-used key keeps its place in the dict's order
    var order := if ci.uid in s.myClients then s.clientOrder else s.clientOrder + [ci.uid];
    var st := s.(myClients := s.myClients[ci.uid := ci], clientOrder := order,
                 systemUsers := s.systemUsers[ci.uid := SystemUserInfo(ci.uid, ci.name, s.myId, ci.lastAlive)]);
    assert WellFormed(s) && ci.uid !in s.myClients ==> Distinct(order) by {
      if WellFormed(s) && ci.uid !in s.myClients {
        assert forall i :: 0 <= i < |s.clientOrder| ==> s.clientOrder[i] in s.myClients;
      }
    }
    Next(st, [Send(Connected, ci.sock)] + Flood(NewSystemUserInfo(ci.uid, ci.name, s.myId), s.nbs))
  }

  /** `client_alive`: a `Pong` refreshes the client's stamp; a `Pong` from an
      id that is not a local client raises KeyError. */
  function ClientAlive(s: State, now: Millis, cid: UserId): (r: Step)
    ensures r.Crash? <==> cid !in s.myClients
    ensures r.Crash? ==> r == Crash([], MissingClient(cid))
    ensures r.Next? ==>
      && r.out == []
      && r.st == s.(myClients := r.st.myClients)
      && r.st.myClients.Keys == s.myClients.Keys
      && r.st.myClients[cid] == s.myClients[cid].(lastAlive := now)
      && (forall c :: c in s.myClients && c != cid ==> r.st.myClients[c] == s.myClients[c])
  {
    if cid !in s.myClients then Crash([], MissingClient(cid))
    else Next(s.(myClients := s.myClients[cid := s.myClients[cid].(lastAlive := now)]), [])
  }

  /** `client_discovery`: ping every local client in dict order, re-arm. */
  function ClientDiscovery(s: State): (r: Step)
    requires WellFormed(s)
    ensures r.Next? && r.st == s
    ensures |r.out| == |s.clientOrder| + 1
    ensures forall i :: 0 <= i < |s.clientOrder| ==>
      r.out[i] == Send(Ping, s.myClients[s.clientOrder[i]].sock)
    ensures r.out[|s.clientOrder|] == Schedule(Event.ClientDiscovery, ClientDiscoveryMs)
  {
    var pings := seq(|s.clientOrder|, i requires 0 <= i < |s.clientOrder| =>
      Send(Ping, s.myClients[s.clientOrder[i]].sock));
    Next(s, pings + [Schedule(Event.ClientDiscovery, ClientDiscoveryMs)])
  }

  /** A client silent for longer than `ClientMaxAliveMs`. */
  predicate Expired(c: ClientInfo, now: Millis) {
    now - c.lastAlive > ClientMaxAliveMs
  }

  /** The ids of `order` whose client has expired (`expired`) or not
      (`!expired`), in order. */
  function Select(order: seq<UserId>, clients: map<UserId, ClientInfo>, now: Millis, expired: bool): (r: seq<UserId>)
    requires forall i :: 0 <= i < |order| ==> order[i] in clients
    ensures |r| <= |order|
    ensures forall c :: c in r <==> c in order && Expired(clients[c], now) == expired
    ensures Distinct(order) ==> Distinct(r)
    decreases |order|
  {
    if order == [] then []
    else
      var rest := Select(order[1..], clients, now, expired);
      if Expired(clients[order[0]], now) == expired then
        assert Distinct(order) ==> order[0] !in order[1..] && Distinct(order[1..]) by {
          if Distinct(order) {
            forall k | 0 <= k < |order[1..]| ensures order[1..][k] != order[0] {
              assert order[1..][k] == order[k + 1];
            }
          }
        }
        [order[0]] + rest
      else rest
  }

  /** Selection works id by id: selecting from two runs of the order is
      selecting from each in turn. With `SelectOne` this fixes the result as
      the chosen ids in the order's own order. */
  lemma {:induction false} SelectAppend(a: seq<UserId>, b: seq<UserId>, clients: map<UserId, ClientInfo>,
                                        now: Millis, expired: bool)
    requires forall i :: 0 <= i < |a| ==> a[i] in clients
    requires forall i :: 0 <= i < |b| ==> b[i] in clients
    ensures forall i :: 0 <= i < |a + b| ==> (a + b)[i] in clients
    ensures Select(a + b, clients, now, expired) == Select(a, clients, now, expired) + Select(b, clients, now, expired)
    decreases |a|
  {
    assert forall i :: 0 <= i < |a + b| ==> (a + b)[i] in clients by {
      forall i | 0 <= i < |a + b| ensures (a + b)[i] in clients {
        if i < |a| { assert (a + b)[i] == a[i]; } else { assert (a + b)[i] == b[i - |a|]; }
      }
    }
    if a == [] {
      assert a + b == b;
    } else {
      var head := if Expired(clients[a[0]], now) == expired then [a[0]] else [];
      assert Select(a + b, clients, now, expired) == head + Select(a[1..] + b, clients, now, expired) by {
        assert (a + b)[0] == a[0];
        assert (a + b)[1..] == a[1..] + b;
      }
      assert Select(a, clients, now, expired) == head + Select(a[1..], clients, now, expired);
      SelectAppend(a[1..], b, clients, now, expired);
      ConcatAssoc(head, Select(a[1..], clients, now, expired), Select(b, clients, now, expired));
    }
  }

  /** A single id is selected exactly when its expiry matches. */
  lemma SelectOne(c: UserId, clients: map<UserId, ClientInfo>, now: Millis, expired: bool)
    requires c in clients
    ensures Select([c], clients, now, expired) == if Expired(clients[c], now) == expired then [c] else []
  {
    assert [c][1..] == [];
  }

  /** One `DelSystemUserInfo` per removed client per neighbour, client by
      client. */
  function DelFloods(gone: seq<UserId>, nbs: seq<SocketInfo>): (out: seq<Output>)
    ensures |out| == |gone| * |nbs|
    decreases |gone|
  {
    if gone == [] then []
    else Flood(DelSystemUserInfo(gone[0]), nbs) + DelFloods(gone[1..], nbs)
  }

  /** The notice flood holds nothing but removal notices for the given
      clients, each addressed to a neighbour. */
  lemma {:induction false} DelFloodsOnly(gone: seq<UserId>, nbs: seq<SocketInfo>)
    ensures forall o :: o in DelFloods(gone, nbs) ==>
      o.Send? && o.msg.DelSystemUserInfo? && o.msg.uid in gone && o.to in nbs
    decreases |gone|
  {
    if gone != [] {
      DelFloodsOnly(gone[1..], nbs);
      assert forall o :: o in Flood(DelSystemUserInfo(gone[0]), nbs) ==>
        o.Send? && o.msg == DelSystemUserInfo(gone[0]) && o.to in nbs;
    }
  }

  /** The datagram at position `(i, j)` tells neighbour `j` that client `i`
      is gone: each removal reaches each neighbour exactly once. */
  lemma {:induction false} DelFloodsAt(gone: seq<UserId>, nbs: seq<SocketInfo>, i: nat, j: nat)
    requires i < |gone| && j < |nbs|
    ensures i * |nbs| + j < |DelFloods(gone, nbs)|
    ensures DelFloods(gone, nbs)[i * |nbs| + j] == Send(DelSystemUserInfo(gone[i]), nbs[j])
    decreases i
  {
    if i > 0 {
      DelFloodsAt(gone[1..], nbs, i - 1, j);
      assert i * |nbs| + j == (i - 1) * |nbs| + j + |nbs|;
    }
  }

  /** An expired local client that has no directory entry to delete. */
  predicate Lost(s: State, c: UserId, now: Millis) {
    c in s.myClients && Expired(s.myClients[c], now) && c !in s.systemUsers
  }

  /** The position of the first lost client of `pending`, or `|pending|`. */
  function FirstLost(s: State, pending: seq<UserId>, now: Millis): (k: nat)
    ensures k <= |pending|
    ensures forall j :: 0 <= j < k ==> !Lost(s, pending[j], now)
    ensures k < |pending| ==> Lost(s, pending[k], now)
    decreases |pending|
  {
    if pending == [] then 0
    else if Lost(s, pending[0], now) then 0
    else 1 + FirstLost(s, pending[1..], now)
  }

  /** Deleting client `c` from both tables leaves every other client's
      status untouched. */
  lemma FirstLostWithout(s: State, c: UserId, tail: seq<UserId>, now: Millis)
    requires c !in tail
    ensures var s1 := s.(myClients := s.myClients - {c}, systemUsers := s.systemUsers - {c});
      FirstLost(s1, tail, now) == FirstLost(s, tail, now)
    decreases |tail|
  {
    if tail != [] {
      assert tail[0] != c;
      FirstLostWithout(s, c, tail[1..], now);
    }
  }

  /** The loop of `remove_inactive_clients` over the ids still to visit, in
      dict order: an expired client is announced gone and deleted from both
      tables; an expired client without a directory entry raises KeyError
      after the notices for the clients before it were sent. */
  function PruneFrom(s: State, pending: seq<UserId>, now: Millis): (r: Step)
    requires forall i :: 0 <= i < |pending| ==> pending[i] in s.myClients
    requires Distinct(pending)
    ensures var k := FirstLost(s, pending, now);
      && (r.Crash? <==> k < |pending|)
      && (r.Crash? ==> r == Crash(DelFloods(Select(pending[..k], s.myClients, now, true), s.nbs),
                                  MissingDirectoryEntry(pending[k])))
    ensures r.Next? ==> PrunedTo(s, pending, now, r.st)
    ensures r.Next? ==> r.out == DelFloods(Select(pending, s.myClients, now, true), s.nbs)
    decreases |pending|
  {
    if pending == [] then Next(s, [])
    else
      var c := pending[0];
      var tail := pending[1..];
      DistinctTail(pending);
      if Expired(s.myClients[c], now) then
        if c !in s.systemUsers then
          assert pending[..0] == [];
          Crash([], MissingDirectoryEntry(c))
        else
          var s1 := s.(myClients := s.myClients - {c}, systemUsers := s.systemUsers - {c});
          DropExpiredHead(s, pending, now);
          var rest := PruneFrom(s1, tail, now);
          match rest
          case Next(st, out) =>
            PrunedStep(s, s1, pending, now, st);
            Next(st, Flood(DelSystemUserInfo(c), s.nbs) + out)
          case Crash(out, f) =>
            Crash(Flood(DelSystemUserInfo(c), s.nbs) + out, f)
      else
        SkipFreshHead(s, pending, now);
        var rest := PruneFrom(s, tail, now);
        match rest
        case Next(st, out) =>
          PrunedSkip(s, pending, now, st);
          rest
        case Crash(out, f) =>
          rest
  }

  /** Visiting an expired head that has a directory entry: the rest of the
      walk sees the same lost clients and selects the same expired ones. */
  lemma DropExpiredHead(s: State, pending: seq<UserId>, now: Millis)
    requires pending != [] && Distinct(pending)
    requires forall i :: 0 <= i < |pending| ==> pending[i] in s.myClients
    requires Expired(s.myClients[pending[0]], now) && pending[0] in s.systemUsers
    ensures var c := pending[0];
      var tail := pending[1..];
      var s1 := s.(myClients := s.myClients - {c}, systemUsers := s.systemUsers - {c});
      var k := FirstLost(s1, tail, now);
      && Distinct(tail)
      && (forall i :: 0 <= i < |tail| ==> tail[i] in s1.myClients)
      && FirstLost(s, pending, now) == k + 1
      && DelFloods(Select(pending, s.myClients, now, true), s.nbs)
         == Flood(DelSystemUserInfo(c), s.nbs) + DelFloods(Select(tail, s1.myClients, now, true), s.nbs)
      && (k < |tail| ==>
            DelFloods(Select(pending[..k + 1], s.myClients, now, true), s.nbs)
            == Flood(DelSystemUserInfo(c), s.nbs) + DelFloods(Select(tail[..k], s1.myClients, now, true), s.nbs))
  {
    var c := pending[0];
    var tail := pending[1..];
    var s1 := s.(myClients := s.myClients - {c}, systemUsers := s.systemUsers - {c});
    DistinctTail(pending);
    FirstLostWithout(s, c, tail, now);
    var k := FirstLost(s, tail, now);
    assert pending[..k + 1] == [c] + tail[..k];
    SelectSame(tail, s1.myClients, s.myClients, now);
    SelectSame(tail[..k], s1.myClients, s.myClients, now);
    DelFloodsCons(c, Select(tail, s.myClients, now, true), s.nbs);
    DelFloodsCons(c, Select(tail[..k], s.myClients, now, true), s.nbs);
  }

  /** Visiting a head that has not expired: nothing to do for it. */
  lemma SkipFreshHead(s: State, pending: seq<UserId>, now: Millis)
    requires pending != [] && Distinct(pending)
    requires forall i :: 0 <= i < |pending| ==> pending[i] in s.myClients
    requires !Expired(s.myClients[pending[0]], now)
    ensures var tail := pending[1..];
      var k := FirstLost(s, tail, now);
      && Distinct(tail)
      && (forall i :: 0 <= i < |tail| ==> tail[i] in s.myClients)
      && FirstLost(s, pending, now) == k + 1
      && Select(pending, s.myClients, now, true) == Select(tail, s.myClients, now, true)
      && (k < |tail| ==> Select(pending[..k + 1], s.myClients, now, true) == Select(tail[..k], s.myClients, now, true))
  {
    var tail := pending[1..];
    DistinctTail(pending);
    var k := FirstLost(s, tail, now);
    assert pending[..k + 1] == [pending[0]] + tail[..k];
  }

  lemma DelFloodsCons(c: UserId, gone: seq<UserId>, nbs: seq<SocketInfo>)
    ensures DelFloods([c] + gone, nbs) == Flood(DelSystemUserInfo(c), nbs) + DelFloods(gone, nbs)
  {
    assert ([c] + gone)[1..] == gone;
  }

  /** `st` is `s` after deleting the expired clients of `pending` from both
      tables, with everything else as it was. */
  ghost predicate PrunedTo(s: State, pending: seq<UserId>, now: Millis, st: State)
    requires forall i :: 0 <= i < |pending| ==> pending[i] in s.myClients
  {
    && st == s.(myClients := st.myClients, systemUsers := st.systemUsers)
    && (forall c :: c in st.myClients <==> c in s.myClients && !(c in pending && Expired(s.myClients[c], now)))
    && (forall c :: c in st.myClients ==> st.myClients[c] == s.myClients[c])
    && (forall u :: u in st.systemUsers <==>
          u in s.systemUsers && !(u in pending && Expired(s.myClients[u], now)))
    && (forall u :: u in st.systemUsers ==> st.systemUsers[u] == s.systemUsers[u])
  }

  lemma PrunedStep(s: State, s1: State, pending: seq<UserId>, now: Millis, st: State)
    requires pending != [] && pending[0] !in pending[1..]
    requires forall i :: 0 <= i < |pending| ==> pending[i] in s.myClients
    requires Expired(s.myClients[pending[0]], now)
    requires s1 == s.(myClients := s.myClients - {pending[0]}, systemUsers := s.systemUsers - {pending[0]})
    requires forall i :: 0 <= i < |pending[1..]| ==> pending[1..][i] in s1.myClients
    requires PrunedTo(s1, pending[1..], now, st)
    ensures PrunedTo(s, pending, now, st)
  {
    forall u ensures u in pending <==> u == pending[0] || u in pending[1..] {
      assert pending == [pending[0]] + pending[1..];
    }
  }

  lemma PrunedSkip(s: State, pending: seq<UserId>, now: Millis, st: State)
    requires pending != []
    requires forall i :: 0 <= i < |pending| ==> pending[i] in s.myClients
    requires !Expired(s.myClients[pending[0]], now)
    requires forall i :: 0 <= i < |pending[1..]| ==> pending[1..][i] in s.myClients
    requires PrunedTo(s, pending[1..], now, st)
    ensures PrunedTo(s, pending, now, st)
  {
    forall u ensures u in pending <==> u == pending[0] || u in pending[1..] {
      assert pending == [pending[0]] + pending[1..];
    }
  }

  lemma DistinctTail(xs: seq<UserId>)
    requires xs != [] && Distinct(xs)
    ensures Distinct(xs[1..]) && xs[0] !in xs[1..]
  {
    forall k | 0 <= k < |xs[1..]| ensures xs[1..][k] != xs[0] {
      assert xs[1..][k] == xs[k + 1];
    }
  }

  /** Selection only looks at the clients named in the order. */
  lemma {:induction false} SelectSame(order: seq<UserId>, a: map<UserId, ClientInfo>, b: map<UserId, ClientInfo>,
                                      now: Millis)
    requires forall i :: 0 <= i < |order| ==> order[i] in a && order[i] in b && a[order[i]] == b[order[i]]
    ensures Select(order, a, now, true) == Select(order, b, now, true)
    decreases |order|
  {
    if order != [] {
      SelectSame(order[1..], a, b, now);
    }
  }

  /** `remove_inactive_clients`: drop every expired client from the sessions
      and the directory, telling every neighbour, in dict order; re-arm. */
  function RemoveInactiveClients(s: State, now: Millis): (r: Step)
    requires WellFormed(s)
    ensures r.Crash? <==> exists c :: Lost(s, c, now)
    // the KeyError comes at the first lost client in dict order, after the
    // notices for the expired clients before it
    ensures r.Crash? ==> var k := FirstLost(s, s.clientOrder, now);
      && k < |s.clientOrder|
      && r == Crash(DelFloods(Select(s.clientOrder[..k], s.myClients, now, true), s.nbs),
                    MissingDirectoryEntry(s.clientOrder[k]))
    ensures r.Next? ==>
      && r.st == s.(myClients := r.st.myClients, clientOrder := r.st.clientOrder,
                    systemUsers := r.st.systemUsers)
      // exactly the expired clients go, from both tables; the survivors are unchanged
      && (forall c :: c in r.st.myClients <==> c in s.myClients && !Expired(s.myClients[c], now))
      && (forall c :: c in r.st.myClients ==> r.st.myClients[c] == s.myClients[c])
      && (forall u :: u in r.st.systemUsers <==>
            u in s.systemUsers && !(u in s.myClients && Expired(s.myClients[u], now)))
      && (forall u :: u in r.st.systemUsers ==> r.st.systemUsers[u] == s.systemUsers[u])
      && WellFormed(r.st)
      // the survivors keep their relative dict order, which is the next ping order
      && r.st.clientOrder == Select(s.clientOrder, s.myClients, now, false)
      && (Mirrored(s) ==> Mirrored(r.st))
      // one notice per expired client per neighbour, then the re-arm
      && r.out == DelFloods(Select(s.clientOrder, s.myClients, now, true), s.nbs)
                  + [Schedule(Event.RemoveInactiveClients, ClientDiscoveryMs)]
  {
    var step := PruneFrom(s, s.clientOrder, now);
    var k := FirstLost(s, s.clientOrder, now);
    assert (exists c :: Lost(s, c, now)) ==> k < |s.clientOrder| by {
      if c :| Lost(s, c, now) {
        var i :| 0 <= i < |s.clientOrder| && s.clientOrder[i] == c;
        assert i >= k;
      }
    }
    match step
    case Crash(out, f) =>
      assert Lost(s, s.clientOrder[k], now);
      step
    case Next(st, out) =>
      var order := Select(s.clientOrder, s.myClients, now, false);
      assert forall i :: 0 <= i < |order| ==> order[i] in st.myClients by {
        forall i | 0 <= i < |order| ensures order[i] in st.myClients {
          assert order[i] in order;
        }
      }
      Next(st.(clientOrder := order), out + [Schedule(Event.RemoveInactiveClients, ClientDiscoveryMs)])
  }

  /** A client that answered the ping at `now` survives a sweep at `now`. */
  lemma AliveClientSurvives(s: State, now: Millis, cid: UserId)
    requires WellFormed(s) && Mirrored(s) && cid in s.myClients
    ensures var s1 := ClientAlive(s, now, cid).st;
      && WellFormed(s1) && Mirrored(s1)
      && var r := RemoveInactiveClients(s1, now);
      r.Next? && cid in r.st.myClients && cid in r.st.systemUsers
  {
    var s1 := ClientAlive(s, now, cid).st;
    assert forall c :: !Lost(s1, c, now);
    assert !Expired(s1.myClients[cid], now);
  }

  /** A client swept away as expired is gone for good: a `Pong` from it
      arriving later raises KeyError. */
  lemma LatePongCrashes(s: State, now: Millis, later: Millis, cid: UserId)
    requires WellFormed(s) && Mirrored(s)
    requires cid in s.myClients && Expired(s.myClients[cid], now)
    ensures var r := RemoveInactiveClients(s, now);
      r.Next? && ClientAlive(r.st, later, cid) == Crash([], MissingClient(cid))
  {
    assert forall c :: !Lost(s, c, now);
  }

  /** `new_system_user`: a peer announces a user; only a new id is stored and
      re-flooded. */
  function NewSystemUser(s: State, info: SystemUserInfo): (r: Step)
    ensures r.Next?
    ensures info.uid !in s.systemUsers ==>
      && r.st == s.(systemUsers := s.systemUsers[info.uid := info])
      && |r.out| == |s.nbs|
      && (forall i :: 0 <= i < |s.nbs| ==>
            r.out[i] == Send(NewSystemUserInfo(info.uid, info.name, info.sid), s.nbs[i]))
    ensures info.uid in s.systemUsers ==> r == Next(s, [])
  {
    if info.uid !in s.systemUsers then
      Next(s.(systemUsers := s.systemUsers[info.uid := info]),
           Flood(NewSystemUserInfo(info.uid, info.name, info.sid), s.nbs))
    else Next(s, [])
  }

  /** `del_system_user`: a peer announces a removal; only a present id is
      deleted and re-flooded. Local sessions are not consulted. */
  function DelSystemUser(s: State, uid: UserId): (r: Step)
    ensures r.Next?
    ensures uid in s.systemUsers ==>
      && r.st == s.(systemUsers := s.systemUsers - {uid})
      && |r.out| == |s.nbs|
      && (forall i :: 0 <= i < |s.nbs| ==> r.out[i] == Send(DelSystemUserInfo(uid), s.nbs[i]))
    ensures uid !in s.systemUsers ==> r == Next(s, [])
  {
    if uid in s.systemUsers then
      Next(s.(systemUsers := s.systemUsers - {uid}), Flood(DelSystemUserInfo(uid), s.nbs))
    else Next(s, [])
  }

  /** A repeated `NewSystemUserInfo` is absorbed: the second copy changes
      nothing and floods nothing. */
  lemma NewSystemUserIdempotent(s: State, info: SystemUserInfo)
    ensures var once := NewSystemUser(s, info).st;
      NewSystemUser(once, info) == Next(once, [])
  {
  }

  /** A repeated `DelSystemUserInfo` is absorbed likewise. */
  lemma DelSystemUserIdempotent(s: State, uid: UserId)
    ensures var once := DelSystemUser(s, uid).st;
      DelSystemUser(once, uid) == Next(once, [])
  {
  }

  /** `send_user_list`: send the directory's id-to-name list to the asker. */
  function SendUserList(s: State, dest: SocketInfo): (r: Step)
    ensures r.Next? && r.st == s && |r.out| == 1
    ensures r.out[0].Send? && r.out[0].to == dest && r.out[0].msg.UserList?
    ensures r.out[0].msg.names.Keys == s.systemUsers.Keys
    ensures forall u :: u in s.systemUsers ==> r.out[0].msg.names[u] == s.systemUsers[u].name
  {
    Next(s, [Send(UserList(map u | u in s.systemUsers :: s.systemUsers[u].name), dest)])
  }

  /** A notice for a new user followed by its removal notice leaves the
      directory as it was. */
  lemma NewThenDelRestores(s: State, info: SystemUserInfo)
    requires info.uid !in s.systemUsers
    ensures DelSystemUser(NewSystemUser(s, info).st, info.uid).st == s
  {
    assert s.systemUsers[info.uid := info] - {info.uid} == s.systemUsers;
  }

  /** With no expired client in the order, the expired selection is empty and
      the surviving selection is the order itself. */
  lemma {:induction false} SelectNoneExpired(order: seq<UserId>, clients: map<UserId, ClientInfo>, now: Millis)
    requires forall i :: 0 <= i < |order| ==> order[i] in clients && !Expired(clients[order[i]], now)
    ensures Select(order, clients, now, false) == order
    ensures Select(order, clients, now, true) == []
    decreases |order|
  {
    if order != [] {
      SelectNoneExpired(order[1..], clients, now);
      assert [order[0]] + order[1..] == order;
    }
  }

  /** A second client sweep at the same instant finds nothing to remove. */
  lemma RemoveInactiveClientsIdempotent(s: State, now: Millis)
    requires WellFormed(s) && Mirrored(s)
    ensures var once := RemoveInactiveClients(s, now);
      && once.Next?
      && RemoveInactiveClients(once.st, now)
         == Next(once.st, [Schedule(Event.RemoveInactiveClients, ClientDiscoveryMs)])
  {
    assert forall c :: !Lost(s, c, now);
    var st := RemoveInactiveClients(s, now).st;
    SweepQuiet(st, now);
  }

  /** A sweep over a well-formed, mirrored node with no expired client
      changes nothing. */
  lemma SweepQuiet(s: State, now: Millis)
    requires WellFormed(s) && Mirrored(s)
    requires forall c :: c in s.myClients ==> !Expired(s.myClients[c], now)
    ensures RemoveInactiveClients(s, now) == Next(s, [Schedule(Event.RemoveInactiveClients, ClientDiscoveryMs)])
  {
    assert forall c :: !Lost(s, c, now);
    var r := RemoveInactiveClients(s, now);
    assert r.Next?;
    SelectNoneExpired(s.clientOrder, s.myClients, now);
    forall c | c in s.myClients ensures c in r.st.myClients && r.st.myClients[c] == s.myClients[c] {
      assert !Expired(s.myClients[c], now);
    }
    assert r.st.myClients == s.myClients;
    forall u | u in s.systemUsers ensures u in r.st.systemUsers && r.st.systemUsers[u] == s.systemUsers[u] {
      assert !(u in s.myClients && Expired(s.myClients[u], now));
    }
    assert r.st.systemUsers == s.systemUsers;
  }

  /** A sweep past a client's timeout removes it from the sessions and the
      directory and tells each neighbour. */
  lemma ExpiredClientAnnounced(s: State, c: UserId, now: Millis)
    requires WellFormed(s) && Mirrored(s)
    requires c in s.myClients && Expired(s.myClients[c], now)
    ensures var r := RemoveInactiveClients(s, now);
      && r.Next?
      && c !in r.st.myClients && c !in r.st.systemUsers
      && forall j :: 0 <= j < |s.nbs| ==> Send(DelSystemUserInfo(c), s.nbs[j]) in r.out
  {
    assert forall x :: !Lost(s, x, now);
    var r := RemoveInactiveClients(s, now);
    var gone := Select(s.clientOrder, s.myClients, now, true);
    assert c in gone;
    AnnouncedToAll(gone, s.nbs, c);
    var tail := [Schedule(Event.RemoveInactiveClients, ClientDiscoveryMs)];
    assert r.out == DelFloods(gone, s.nbs) + tail;
    assert forall o :: o in DelFloods(gone, s.nbs) ==> o in r.out;
  }

  /** Every removed client's notice reaches every neighbour. */
  lemma AnnouncedToAll(gone: seq<UserId>, nbs: seq<SocketInfo>, c: UserId)
    requires c in gone
    ensures forall j :: 0 <= j < |nbs| ==> Send(DelSystemUserInfo(c), nbs[j]) in DelFloods(gone, nbs)
  {
    var i :| 0 <= i < |gone| && gone[i] == c;
    forall j | 0 <= j < |nbs| ensures Send(DelSystemUserInfo(c), nbs[j]) in DelFloods(gone, nbs) {
      DelFloodsAt(gone, nbs, i, j);
    }
  }

  /** A client connects and then falls silent: the next sweep past its
      timeout undoes the connection and announces the removal. */
  lemma ClientRoundTrip(s: State, ci: ClientInfo, now: Millis)
    requires WellFormed(s) && Mirrored(s)
    requires Expired(ci, now)
    ensures var s1 := AddNewClient(s, ci).st;
      var r := RemoveInactiveClients(s1, now);
      && r.Next?
      && ci.uid !in r.st.myClients && ci.uid !in r.st.systemUsers
      && forall j :: 0 <= j < |s.nbs| ==> Send(DelSystemUserInfo(ci.uid), s.nbs[j]) in r.out
  {
    var s1 := AddNewClient(s, ci).st;
    ExpiredClientAnnounced(s1, ci.uid, now);
  }
}
