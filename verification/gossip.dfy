/**
  Gossip about membership and the user directory: the periodic discovery
  requests, the snapshot replies, the merges of received snapshots and the
  liveness sweeps over servers and directory users.
 */
module Gossip {
  import opened Types
  import opened Routing

  /** `server_discovery`: ask every neighbour for its membership, re-arm. */
  function ServerDiscovery(s: State): (r: Step)
    ensures r.Next? && r.st == s
    ensures |r.out| == |s.nbs| + 1
    ensures forall i :: 0 <= i < |s.nbs| ==> r.out[i] == Send(GetKnownServers(s.myPort), s.nbs[i])
    ensures r.out[|s.nbs|] == Schedule(Event.ServerDiscovery, ServDiscoveryMs)
  {
    Next(s, Flood(GetKnownServers(s.myPort), s.nbs) + [Schedule(Event.ServerDiscovery, ServDiscoveryMs)])
  }

  /** `user_discovery`: ask every neighbour for its directory, re-arm. */
  function UserDiscovery(s: State): (r: Step)
    ensures r.Next? && r.st == s
    ensures |r.out| == |s.nbs| + 1
    ensures forall i :: 0 <= i < |s.nbs| ==> r.out[i] == Send(GetKnownUsers(s.myPort), s.nbs[i])
    ensures r.out[|s.nbs|] == Schedule(Event.UserDiscovery, UsersDiscoveryMs)
  {
    Next(s, Flood(GetKnownUsers(s.myPort), s.nbs) + [Schedule(Event.UserDiscovery, UsersDiscoveryMs)])
  }

  /** `send_known_servers`: refresh our own stamp, then send the whole
      membership map to the asker. */
  function SendKnownServers(s: State, now: Millis, peer: SocketInfo): (r: Step)
    ensures r.Next?
    ensures r.st == s.(knownServers := r.st.knownServers)
    ensures r.st.knownServers.Keys == s.knownServers.Keys + {s.myId}
    ensures r.st.knownServers[s.myId] == now
    ensures forall sid :: sid in s.knownServers && sid != s.myId ==>
      r.st.knownServers[sid] == s.knownServers[sid]
    ensures r.out == [Send(KnownServers(r.st.knownServers), peer)]
  {
    var ks := s.knownServers[s.myId := now];
    Next(s.(knownServers := ks), [Send(KnownServers(ks), peer)])
  }

  /** Stamps every local client's directory entry with `now` (the loop at the
      head of `send_known_users` and `remove_inactive_users`); a local client
      without an entry raises KeyError. */
  function RefreshLocal(s: State, now: Millis): (r: Result<map<UserId, SystemUserInfo>, Fault>)
    requires WellFormed(s)
    ensures r.Err? <==> exists c :: c in s.myClients && c !in s.systemUsers
    ensures r.Err? ==>
      && r.error.MissingDirectoryEntry?
      && r.error.uid in s.myClients
      && r.error.uid !in s.systemUsers
    // the KeyError names the first such client in the dict's order
    ensures r.Err? ==> r.error.uid == s.clientOrder[FirstUnlisted(s.clientOrder, s.systemUsers)]
    ensures r.Ok? ==> r.value.Keys == s.systemUsers.Keys
    ensures r.Ok? ==> forall u :: u in s.systemUsers ==>
      r.value[u] == if u in s.myClients then s.systemUsers[u].(lastAlive := now) else s.systemUsers[u]
  {
    var k := FirstUnlisted(s.clientOrder, s.systemUsers);
    if k < |s.clientOrder| then Err(MissingDirectoryEntry(s.clientOrder[k]))
    else
      assert forall c :: c in s.myClients ==> c in s.systemUsers by {
        forall c | c in s.myClients ensures c in s.systemUsers {
          var i :| 0 <= i < |s.clientOrder| && s.clientOrder[i] == c;
        }
      }
      Ok(map u | u in s.systemUsers ::
        if u in s.myClients then s.systemUsers[u].(lastAlive := now) else s.systemUsers[u])
  }

  /** `send_known_users`: refresh local clients' entries, then send the whole
      directory to the asker. */
  function SendKnownUsers(s: State, now: Millis, peer: SocketInfo): (r: Step)
    requires WellFormed(s)
    ensures r.Crash? <==> exists c :: c in s.myClients && c !in s.systemUsers
    ensures r.Crash? ==>
      && r.fault.MissingDirectoryEntry?
      && r.fault.uid in s.myClients
      && r.fault.uid !in s.systemUsers
      && r.fault.uid == s.clientOrder[FirstUnlisted(s.clientOrder, s.systemUsers)]
    ensures r.Crash? ==> r.out == []
    ensures r.Next? ==>
      && r.st == s.(systemUsers := r.st.systemUsers)
      && r.st.systemUsers.Keys == s.systemUsers.Keys
      && (forall u :: u in s.myClients ==> r.st.systemUsers[u] == s.systemUsers[u].(lastAlive := now))
      && (forall u :: u in s.systemUsers && u !in s.myClients ==> r.st.systemUsers[u] == s.systemUsers[u])
      && r.out == [Send(KnownUsers(r.st.systemUsers), peer)]
  {
    match RefreshLocal(s, now)
    case Err(f) => Crash([], f)
    case Ok(users) => Next(s.(systemUsers := users), [Send(KnownUsers(users), peer)])
  }

  /** Membership after merging a received snapshot: union of the ids, the
      later of the two stamps where both know an id. */
  function MergedServers(local: map<NodeId, Millis>, other: map<NodeId, Millis>): map<NodeId, Millis> {
    map sid | sid in local.Keys + other.Keys ::
      if sid in local && sid in other then Max(local[sid], other[sid])
      else if sid in local then local[sid]
      else other[sid]
  }

  /** `merge_known_servers`. */
  function MergeKnownServers(s: State, other: map<NodeId, Millis>): (r: Step)
    ensures r.Next? && r.out == []
    ensures r.st == s.(knownServers := r.st.knownServers, routTable := r.st.routTable)
    ensures r.st.knownServers.Keys == s.knownServers.Keys + other.Keys
    // a known server's stamp becomes the later of the two, so never decreases
    ensures forall sid :: sid in s.knownServers && sid in other ==>
      r.st.knownServers[sid] == Max(s.knownServers[sid], other[sid])
    ensures forall sid :: sid in s.knownServers && sid !in other ==>
      r.st.knownServers[sid] == s.knownServers[sid]
    // an unknown server is adopted with the remote stamp
    ensures forall sid :: sid in other && sid !in s.knownServers ==>
      r.st.knownServers[sid] == other[sid]
    // a new member resets routing; otherwise routing is untouched
    ensures (exists sid :: sid in other && sid !in s.knownServers) ==>
      r.st.routTable == SelfRoute(s.myId, s.myPort)
    ensures (forall sid :: sid in other ==> sid in s.knownServers) ==>
      r.st.routTable == s.routTable
  {
    var s1 := s.(knownServers := MergedServers(s.knownServers, other));
    if forall sid :: sid in other ==> sid in s.knownServers then Next(s1, [])
    else Next(ClearRoutTable(s1), [])
  }

  /** `merge_known_servers` as the source writes it: one id at a time, the
      routing table cleared at every id not known before. The ids are taken in
      an arbitrary order, so the result holds for the dict's order too. */
  method MergeKnownServersLoop(s: State, other: map<NodeId, Millis>) returns (r: State)
    ensures MergeKnownServers(s, other) == Next(r, [])
  {
    var ks := s.knownServers;
    var rt := s.routTable;
    var todo := other.Keys;
    while todo != {}
      invariant todo <= other.Keys
      invariant ks.Keys == s.knownServers.Keys + (other.Keys - todo)
      invariant forall sid :: sid in ks ==>
        ks[sid] == (if sid in todo then s.knownServers[sid] else MergedServers(s.knownServers, other)[sid])
      invariant rt == if other.Keys - todo <= s.knownServers.Keys then s.routTable
                      else SelfRoute(s.myId, s.myPort)
      decreases todo
    {
      ghost var someId := Pick(todo);  // only the witness the `:|` below needs
      var sid :| sid in todo;
      if sid !in ks {
        ks := ks[sid := other[sid]];
        rt := SelfRoute(s.myId, s.myPort);
      } else {
        ks := ks[sid := Max(ks[sid], other[sid])];
      }
      todo := todo - {sid};
    }
    assert ks == MergedServers(s.knownServers, other) by {
      var m := MergedServers(s.knownServers, other);
      assert ks.Keys == m.Keys;
      forall sid | sid in ks ensures ks[sid] == m[sid] {
      }
    }
    r := s.(knownServers := ks, routTable := rt);
  }

  /** Merging is idempotent: receiving the same snapshot twice is receiving
      it once. */
  lemma MergeKnownServersIdempotent(s: State, other: map<NodeId, Millis>)
    ensures var once := MergeKnownServers(s, other).st;
      MergeKnownServers(once, other) == Next(once, [])
  {
    var once := MergeKnownServers(s, other).st;
    assert once.knownServers == MergedServers(s.knownServers, other);
    var twice := MergedServers(once.knownServers, other);
    assert twice.Keys == once.knownServers.Keys;
    forall sid | sid in twice ensures twice[sid] == once.knownServers[sid] {
    }
    assert twice == once.knownServers;
  }

  /** Snapshots may arrive in either order: membership ends up the same. */
  lemma MergeKnownServersCommute(s: State, a: map<NodeId, Millis>, b: map<NodeId, Millis>)
    ensures MergeKnownServers(MergeKnownServers(s, a).st, b).st.knownServers
         == MergeKnownServers(MergeKnownServers(s, b).st, a).st.knownServers
  {
    var sa := MergeKnownServers(s, a).st;
    var sb := MergeKnownServers(s, b).st;
    MembershipAfterMerge(s, a);
    MembershipAfterMerge(s, b);
    MembershipAfterMerge(sa, b);
    MembershipAfterMerge(sb, a);
    MergedServersCommute(s.knownServers, a, b);
  }

  lemma MembershipAfterMerge(s: State, other: map<NodeId, Millis>)
    ensures MergeKnownServers(s, other).st.knownServers == MergedServers(s.knownServers, other)
  {
  }

  lemma MergedServersCommute(k: map<NodeId, Millis>, a: map<NodeId, Millis>, b: map<NodeId, Millis>)
    ensures MergedServers(MergedServers(k, a), b) == MergedServers(MergedServers(k, b), a)
  {
    var ab := MergedServers(MergedServers(k, a), b);
    var ba := MergedServers(MergedServers(k, b), a);
    assert ab.Keys == ba.Keys;
    forall sid | sid in ab ensures ab[sid] == ba[sid] {
    }
  }

  /** The ids a received directory snapshot may contribute: those whose
      claimed owner is not this node. */
  function Adoptable(myId: NodeId, other: map<UserId, SystemUserInfo>): (ids: set<UserId>)
    ensures forall u :: u in ids <==> u in other && other[u].sid != myId
  {
    set u | u in other && other[u].sid != myId
  }

  /** `merge_known_users`. */
  function MergeKnownUsers(s: State, other: map<UserId, SystemUserInfo>): (r: Step)
    ensures r.Next? && r.out == []
    ensures r.st == s.(systemUsers := r.st.systemUsers)
    // nothing is removed; entries claimed by this node are ignored
    ensures r.st.systemUsers.Keys == s.systemUsers.Keys + Adoptable(s.myId, other)
    // unknown users are inserted as given
    ensures forall u :: u in other && other[u].sid != s.myId && u !in s.systemUsers ==>
      r.st.systemUsers[u] == other[u]
    // known users only take the later stamp
    ensures forall u :: u in s.systemUsers && u in other && other[u].sid != s.myId ==>
      r.st.systemUsers[u] == s.systemUsers[u].(lastAlive := Max(s.systemUsers[u].lastAlive, other[u].lastAlive))
    ensures forall u :: u in s.systemUsers && (u !in other || other[u].sid == s.myId) ==>
      r.st.systemUsers[u] == s.systemUsers[u]
  {
    Next(s.(systemUsers := MergedUsers(s.systemUsers, Adoptable(s.myId, other), other)), [])
  }

  function MergedUsers(local: map<UserId, SystemUserInfo>, adopt: set<UserId>,
                       other: map<UserId, SystemUserInfo>): map<UserId, SystemUserInfo>
    requires adopt <= other.Keys
  {
    map u | u in local.Keys + adopt ::
      if u in adopt && u in local then local[u].(lastAlive := Max(local[u].lastAlive, other[u].lastAlive))
      else if u in adopt then other[u]
      else local[u]
  }

  /** `merge_known_users` as the source writes it, one snapshot row at a time
      in an arbitrary order. */
  method MergeKnownUsersLoop(s: State, other: map<UserId, SystemUserInfo>) returns (r: State)
    ensures MergeKnownUsers(s, other) == Next(r, [])
  {
    var users := s.systemUsers;
    var todo := other.Keys;
    ghost var adopt := Adoptable(s.myId, other);
    while todo != {}
      invariant todo <= other.Keys
      invariant users.Keys == s.systemUsers.Keys + (adopt - todo)
      invariant forall u :: u in users ==>
        users[u] == (if u in todo then s.systemUsers[u] else MergedUsers(s.systemUsers, adopt, other)[u])
      decreases todo
    {
      ghost var someId := Pick(todo);  // only the witness the `:|` below needs
      var u :| u in todo;
      if other[u].sid != s.myId {
        if u !in users {
          users := users[u := other[u]];
        } else {
          users := users[u := users[u].(lastAlive := Max(users[u].lastAlive, other[u].lastAlive))];
        }
      }
      todo := todo - {u};
    }
    assert users == MergedUsers(s.systemUsers, adopt, other) by {
      var m := MergedUsers(s.systemUsers, adopt, other);
      assert users.Keys == m.Keys;
      forall u | u in users ensures users[u] == m[u] {
      }
    }
    r := s.(systemUsers := users);
  }

  /** Directory merging is idempotent. */
  lemma MergeKnownUsersIdempotent(s: State, other: map<UserId, SystemUserInfo>)
    ensures var once := MergeKnownUsers(s, other).st;
      MergeKnownUsers(once, other) == Next(once, [])
  {
    var once := MergeKnownUsers(s, other).st;
    var adopt := Adoptable(s.myId, other);
    assert once.systemUsers == MergedUsers(s.systemUsers, adopt, other);
    var twice := MergedUsers(once.systemUsers, adopt, other);
    assert twice.Keys == once.systemUsers.Keys;
    forall u | u in twice ensures twice[u] == once.systemUsers[u] {
    }
    assert twice == once.systemUsers;
  }

  /** `remove_inactive_servers`: refresh our own stamp, drop every server
      silent for more than `ServMaxAliveMs`, re-arm. */
  function RemoveInactiveServers(s: State, now: Millis): (r: Step)
    ensures r.Next?
    ensures r.st == s.(knownServers := r.st.knownServers, routTable := r.st.routTable)
    // this node is always retained, stamped now
    ensures s.myId in r.st.knownServers && r.st.knownServers[s.myId] == now
    // exactly the fresh peers survive, with their stamps
    ensures forall sid :: sid != s.myId ==>
      (sid in r.st.knownServers <==> sid in s.knownServers && now - s.knownServers[sid] <= ServMaxAliveMs)
    ensures forall sid :: sid in r.st.knownServers && sid != s.myId ==>
      r.st.knownServers[sid] == s.knownServers[sid]
    // a dropped server resets routing; otherwise routing is untouched
    ensures (exists sid :: Stale(s, now, sid)) ==> r.st.routTable == SelfRoute(s.myId, s.myPort)
    ensures (forall sid :: !Stale(s, now, sid)) ==> r.st.routTable == s.routTable
    ensures r.out == [Schedule(Event.RemoveInactiveServers, ServDiscoveryMs)]
  {
    var ks := s.knownServers[s.myId := now];
    var kept := map sid | sid in ks && now - ks[sid] <= ServMaxAliveMs :: ks[sid];
    var s1 := s.(knownServers := kept);
    var st := if forall sid :: sid in ks ==> sid in kept then s1 else ClearRoutTable(s1);
    assert (exists sid :: Stale(s, now, sid)) <==> !(forall sid :: sid in ks ==> sid in kept) by {
      if exists sid :: Stale(s, now, sid) {
        var sid :| Stale(s, now, sid);
        assert sid in ks && sid !in kept;
      }
      if !(forall sid :: sid in ks ==> sid in kept) {
        var sid :| sid in ks && sid !in kept;
        assert Stale(s, now, sid);
      }
    }
    Next(st, [Schedule(Event.RemoveInactiveServers, ServDiscoveryMs)])
  }

  /** A peer (never this node) whose stamp is older than the server timeout. */
  predicate Stale(s: State, now: Millis, sid: NodeId) {
    sid != s.myId && sid in s.knownServers && now - s.knownServers[sid] > ServMaxAliveMs
  }

  /** `remove_inactive_users`: refresh local clients' entries, then drop every
      directory user silent for more than `UsersMaxAliveMs`; peers are not told. */
  function RemoveInactiveUsers(s: State, now: Millis): (r: Step)
    requires WellFormed(s)
    ensures r.Crash? <==> exists c :: c in s.myClients && c !in s.systemUsers
    ensures r.Crash? ==>
      && r.fault.MissingDirectoryEntry?
      && r.fault.uid in s.myClients
      && r.fault.uid !in s.systemUsers
      && r.fault.uid == s.clientOrder[FirstUnlisted(s.clientOrder, s.systemUsers)]
    ensures r.Crash? ==> r.out == []
    ensures r.Next? ==>
      && r.st == s.(systemUsers := r.st.systemUsers)
      // a local client's entry is never removed, and is stamped now
      && (forall c :: c in s.myClients ==>
            c in r.st.systemUsers && r.st.systemUsers[c] == s.systemUsers[c].(lastAlive := now))
      // exactly the fresh non-local users survive, unchanged
      && (forall u :: u !in s.myClients ==>
            (u in r.st.systemUsers <==> u in s.systemUsers && now - s.systemUsers[u].lastAlive <= UsersMaxAliveMs))
      && (forall u :: u in r.st.systemUsers && u !in s.myClients ==> r.st.systemUsers[u] == s.systemUsers[u])
      && r.out == [Schedule(Event.RemoveInactiveUsers, UsersDiscoveryMs)]
  {
    match RefreshLocal(s, now)
    case Err(f) => Crash([], f)
    case Ok(users) =>
      var kept := map u | u in users && now - users[u].lastAlive <= UsersMaxAliveMs :: users[u];
      Next(s.(systemUsers := kept), [Schedule(Event.RemoveInactiveUsers, UsersDiscoveryMs)])
  }

  /** Sweeping twice at the same instant is sweeping once. */
  lemma RemoveInactiveServersIdempotent(s: State, now: Millis)
    ensures var once := RemoveInactiveServers(s, now).st;
      RemoveInactiveServers(once, now) == Next(once, [Schedule(Event.RemoveInactiveServers, ServDiscoveryMs)])
  {
    var once := RemoveInactiveServers(s, now).st;
    var twice := RemoveInactiveServers(once, now).st;
    assert forall sid :: !Stale(once, now, sid);
    assert twice.knownServers.Keys == once.knownServers.Keys;
    assert twice.knownServers == once.knownServers;
  }

  /** Sweeping the directory twice at the same instant is sweeping once. */
  lemma RemoveInactiveUsersIdempotent(s: State, now: Millis)
    requires WellFormed(s) && Mirrored(s)
    ensures var once := RemoveInactiveUsers(s, now);
      once.Next? && RemoveInactiveUsers(once.st, now) == once
  {
    var once := RemoveInactiveUsers(s, now);
    assert once.Next?;
    var twice := RemoveInactiveUsers(once.st, now);
    assert twice.Next?;
    assert twice.st.systemUsers.Keys == once.st.systemUsers.Keys;
    assert twice.st.systemUsers == once.st.systemUsers;
  }

  /** A node that merges our `KnownServers` reply learns every server we
      know, ourselves included, and holds for each a stamp no older than the
      one we sent. */
  lemma ServersSnapshotSpreads(s: State, now: Millis, peer: SocketInfo, t: State)
    ensures var snap := SendKnownServers(s, now, peer).out[0].msg.servers;
      var merged := MergeKnownServers(t, snap).st.knownServers;
      && s.knownServers.Keys + {s.myId} <= merged.Keys
      && merged[s.myId] >= now
      && forall sid :: sid in snap ==> merged[sid] >= snap[sid]
  {
  }

  /** A node that merges our `KnownUsers` reply learns every user it does
      not own itself, with a stamp no older than ours; our own clients reach
      it stamped `now`. */
  lemma UsersSnapshotSpreads(s: State, now: Millis, peer: SocketInfo, t: State)
    requires WellFormed(s) && Mirrored(s)
    ensures var r := SendKnownUsers(s, now, peer);
      && r.Next?
      && var snap := r.out[0].msg.users;
      var merged := MergeKnownUsers(t, snap).st.systemUsers;
      && (forall u :: u in s.systemUsers && s.systemUsers[u].sid != t.myId ==>
            u in merged && merged[u].lastAlive >= snap[u].lastAlive)
      && (forall c :: c in s.myClients && s.myId != t.myId ==> c in merged && merged[c].lastAlive >= now)
  {
    var r := SendKnownUsers(s, now, peer);
    assert r.Next?;
    var snap := r.out[0].msg.users;
    forall c | c in s.myClients && s.myId != t.myId
      ensures snap[c].sid != t.myId && snap[c].lastAlive == now
    {
    }
  }
}
