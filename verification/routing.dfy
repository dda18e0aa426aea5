/**
  On-demand distance-vector routing: `clear_rout_table`, `find_route`,
  `return_hops` (answering or forwarding a `CountHops` query) and `update_hops`
  (Bellman-Ford relaxation on a `HopsFrom` answer).
 */
module Routing {
  import opened Types

  /** `clear_rout_table`: forget every route but the self entry. */
  function ClearRoutTable(s: State): (r: State)
    ensures r.routTable.Keys == {s.myId}
    ensures r.routTable[s.myId] == Resolved(0, SocketInfo(Loopback, s.myPort))
    ensures r == s.(routTable := r.routTable)
  {
    s.(routTable := SelfRoute(s.myId, s.myPort))
  }

  /** `find_route`: flood a `CountHops` query for `sid`, naming our port as the
      one to answer to. */
  function FindRoute(s: State, sid: NodeId): (out: seq<Output>)
    ensures |out| == |s.nbs|
    ensures forall i :: 0 <= i < |out| ==> out[i] == Send(CountHops(sid, s.myPort), s.nbs[i])
  {
    Flood(CountHops(sid, s.myPort), s.nbs)
  }

  /** `return_hops`: a neighbour at `from` asks how far `sid` is. */
  function ReturnHops(s: State, from: SocketInfo, sid: NodeId): (r: Step)
    ensures r.Next?
    // never looked for: mark pending and flood the query onward
    ensures sid !in s.routTable ==>
      && r.st == s.(routTable := s.routTable[sid := Pending])
      && r.out == FindRoute(s, sid)
    // already pending: the outstanding query suffices
    ensures sid in s.routTable && s.routTable[sid].Pending? ==>
      r.st == s && r.out == []
    // resolved: answer the asker alone, table untouched
    ensures sid in s.routTable && s.routTable[sid].Resolved? ==>
      && r.st == s
      && r.out == [Send(HopsFrom(sid, s.routTable[sid].hops, s.myPort), from)]
  {
    if sid in s.routTable then
      match s.routTable[sid]
      case Resolved(hops, _) => Next(s, [Send(HopsFrom(sid, hops, s.myPort), from)])
      case Pending => Next(s, [])
    else
      Next(s.(routTable := s.routTable[sid := Pending]), FindRoute(s, sid))
  }

  /** The relaxation test of `update_hops`: a path of `hops + 1` via the
      announcer beats what the table holds for `sid`. */
  predicate Improves(rt: map<NodeId, RouteEntry>, sid: NodeId, hops: int) {
    sid !in rt || rt[sid].Pending? || rt[sid].hops > hops + 1
  }

  /** `update_hops`: the neighbour at `from` is `hops` away from `sid`. */
  function UpdateHops(s: State, from: SocketInfo, sid: NodeId, hops: int): (r: Step)
    ensures r.Next?
    ensures Improves(s.routTable, sid, hops) ==>
      && r.st == s.(routTable := s.routTable[sid := Resolved(hops + 1, from)])
      && |r.out| == |s.nbs|
      && (forall i :: 0 <= i < |s.nbs| ==> r.out[i] == Send(HopsFrom(sid, hops + 1, s.myPort), s.nbs[i]))
    ensures !Improves(s.routTable, sid, hops) ==> r.st == s && r.out == []
  {
    if Improves(s.routTable, sid, hops) then
      Next(s.(routTable := s.routTable[sid := Resolved(hops + 1, from)]),
           Flood(HopsFrom(sid, hops + 1, s.myPort), s.nbs))
    else
      Next(s, [])
  }

  /** A resolved hop count never grows under relaxation, and only the entry
      for `sid` can change. */
  lemma UpdateHopsMonotone(s: State, from: SocketInfo, sid: NodeId, hops: int, dest: NodeId)
    requires dest in s.routTable && s.routTable[dest].Resolved?
    ensures var rt := UpdateHops(s, from, sid, hops).st.routTable;
      && dest in rt && rt[dest].Resolved?
      && rt[dest].hops <= s.routTable[dest].hops
    ensures dest != sid ==> UpdateHops(s, from, sid, hops).st.routTable[dest] == s.routTable[dest]
  {
  }

  /** Relaxing a resolved entry keeps the shorter of the stored path and the
      announced one, and switches next hop only on a strict improvement. */
  lemma UpdateHopsKeepsShorter(s: State, from: SocketInfo, sid: NodeId, hops: int)
    requires sid in s.routTable && s.routTable[sid].Resolved?
    ensures var before := s.routTable[sid];
      var e := UpdateHops(s, from, sid, hops).st.routTable[sid];
      && e.Resolved?
      && e.hops == (if hops + 1 < before.hops then hops + 1 else before.hops)
      && (e.next == from || e == before)
      && (e != before ==> hops + 1 < before.hops)
  {
  }

  /** A second query for the same destination floods nothing: the pending
      marker left by the first one suppresses it. */
  lemma ReturnHopsFloodsOnce(s: State, a: SocketInfo, b: SocketInfo, sid: NodeId)
    requires sid !in s.routTable
    ensures var first := ReturnHops(s, a, sid);
      && |first.out| == |s.nbs|
      && ReturnHops(first.st, b, sid) == Next(first.st, [])
  {
  }

  /** With a non-negative announced distance the self entry `(0, …)` is never
      overwritten. */
  lemma SelfEntryStable(s: State, from: SocketInfo, hops: int)
    requires hops >= 0
    requires s.myId in s.routTable && s.routTable[s.myId].Resolved? && s.routTable[s.myId].hops == 0
    ensures UpdateHops(s, from, s.myId, hops) == Next(s, [])
  {
  }

  /** A `HopsFrom` announcement as it arrives: announcer and distance. */
  datatype Announcement = Announcement(from: SocketInfo, hops: int)

  /** Applies a run of announcements about one destination in arrival order. */
  function Relax(s: State, sid: NodeId, anns: seq<Announcement>): State
    decreases |anns|
  {
    if anns == [] then s
    else Relax(UpdateHops(s, anns[0].from, sid, anns[0].hops).st, sid, anns[1..])
  }

  /** Over any run of relaxations the hop count toward `sid` is non-increasing,
      and it stays at most the best announcement seen plus one. */
  lemma {:induction false} RelaxNonIncreasing(s: State, sid: NodeId, anns: seq<Announcement>)
    requires sid in s.routTable && s.routTable[sid].Resolved?
    ensures var rt := Relax(s, sid, anns).routTable;
      && sid in rt && rt[sid].Resolved?
      && rt[sid].hops <= s.routTable[sid].hops
      && (forall k :: 0 <= k < |anns| ==> rt[sid].hops <= anns[k].hops + 1)
    decreases |anns|
  {
    if anns != [] {
      var s1 := UpdateHops(s, anns[0].from, sid, anns[0].hops).st;
      UpdateHopsMonotone(s, anns[0].from, sid, anns[0].hops, sid);
      assert s1.routTable[sid].hops <= anns[0].hops + 1;
      RelaxNonIncreasing(s1, sid, anns[1..]);
      forall k | 1 <= k < |anns| ensures anns[k] == anns[1..][k - 1] {
      }
    }
  }

  /** Once any announcement about `sid` is relaxed, the entry is resolved,
      whatever it was before (absent or pending). */
  lemma {:induction false} RelaxResolves(s: State, sid: NodeId, anns: seq<Announcement>)
    requires anns != []
    ensures var rt := Relax(s, sid, anns).routTable;
      sid in rt && rt[sid].Resolved? && rt[sid].hops <= anns[0].hops + 1
  {
    var s1 := UpdateHops(s, anns[0].from, sid, anns[0].hops).st;
    assert s1.routTable[sid].Resolved? && s1.routTable[sid].hops <= anns[0].hops + 1;
    RelaxNonIncreasing(s1, sid, anns[1..]);
  }
}
