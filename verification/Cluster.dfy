/** The cluster client's tables and how a CLUSTER NODES listing refreshes them. */
module Cluster {
  import opened Bytes

  type NodeId = string

  datatype Node = Node(host: string, port: nat)

  datatype NodeInfo = NodeInfo(node: Node, id: NodeId, master: bool, replica: bool, fail: bool, slots: seq<(int, int)>)

  // The errors of a connection: of input or output, end of file, and all others.
  datatype Fault = Io | Eof | Other

  // A connection; a broken one has its context in error and was not closed.
  datatype Link = Closed | Open | Broken(fault: Fault)

  // A master known to the client: its connection and its consecutive failures.
  datatype Master = Master(id: NodeId, link: Link, connErrors: nat)

  // Master nodes by address, addresses by node id, and the owner of each slot.
  datatype Tables = Tables(masters: map<Node, Master>, ids: map<NodeId, Node>, slots: seq<Node>)

  predicate Live(info: NodeInfo) {
    info.master && !info.fail
  }

  function LiveNodes(infos: seq<NodeInfo>): set<Node> {
    set i | 0 <= i < |infos| && Live(infos[i]) :: infos[i].node
  }

  predicate Claims(info: NodeInfo, slot: int) {
    exists k :: 0 <= k < |info.slots| && info.slots[k].0 <= slot <= info.slots[k].1
  }

  predicate InRange(info: NodeInfo, n: nat) {
    forall k :: 0 <= k < |info.slots| ==> 0 <= info.slots[k].0 && info.slots[k].1 < n
  }

  predicate AllInRange(infos: seq<NodeInfo>, n: nat) {
    forall i :: 0 <= i < |infos| ==> InRange(infos[i], n)
  }

  // --- what a refresh does to the tables ---

  function Claim(slots: seq<Node>, info: NodeInfo): (r: seq<Node>)
    ensures |r| == |slots|
  {
    seq(|slots|, slot requires 0 <= slot < |slots| => if Claims(info, slot) then info.node else slots[slot])
  }

  function AddMaster(t: Tables, info: NodeInfo, reachable: set<Node>): Tables {
    var link := if info.node in reachable then Open else Closed;
    Tables(t.masters[info.node := Master(info.id, link, 0)], t.ids[info.id := info.node], t.slots)
  }

  // One line of the listing.
  function List(t: Tables, info: NodeInfo, reachable: set<Node>): (u: Tables)
    ensures |u.slots| == |t.slots|
  {
    if !Live(info) then t
    else
      var u := t.(slots := Claim(t.slots, info));
      if info.node in u.masters then u else AddMaster(u, info, reachable)
  }

  function Listed(t: Tables, infos: seq<NodeInfo>, reachable: set<Node>): (u: Tables)
    ensures |u.slots| == |t.slots|
  {
    if infos == [] then t
    else List(Listed(t, infos[..|infos| - 1], reachable), infos[|infos| - 1], reachable)
  }

  // The ids of some masters.
  function IdsOf(masters: map<Node, Master>, nodes: set<Node>): set<NodeId>
    requires nodes <= masters.Keys
  {
    set n | n in nodes :: masters[n].id
  }

  // Masters that are no longer listed go, and so do their ids.
  function Clear(t: Tables, live: set<Node>): Tables {
    var gone := t.masters.Keys - live;
    Tables(t.masters - gone, t.ids - IdsOf(t.masters, gone), t.slots)
  }

  function Refresh(t: Tables, infos: seq<NodeInfo>, reachable: set<Node>): Tables {
    Clear(Listed(t, infos, reachable), LiveNodes(infos))
  }

  // --- what holds of the tables afterwards ---

  // Every id leads to a present master that carries it.
  ghost predicate IdsValid(t: Tables) {
    forall id :: id in t.ids ==> t.ids[id] in t.masters && t.masters[t.ids[id]].id == id
  }

  // Every present master can be found by its id.
  ghost predicate IdsComplete(t: Tables) {
    forall n :: n in t.masters ==> t.masters[n].id in t.ids
  }

  lemma {:induction false} LiveNodesStep(infos: seq<NodeInfo>)
    requires infos != []
    ensures var last := infos[|infos| - 1];
            LiveNodes(infos) == LiveNodes(infos[..|infos| - 1]) + (if Live(last) then {last.node} else {})
  {
    var front, last := infos[..|infos| - 1], infos[|infos| - 1];
    forall n | n in LiveNodes(infos)
      ensures n in LiveNodes(front) + (if Live(last) then {last.node} else {})
    {
      var i :| 0 <= i < |infos| && Live(infos[i]) && infos[i].node == n;
      assert i < |front| ==> front[i] == infos[i];
    }
    forall n | n in LiveNodes(front)
      ensures n in LiveNodes(infos)
    {
      var i :| 0 <= i < |front| && Live(front[i]) && front[i].node == n;
      assert infos[i] == front[i];
    }
  }

  // Listing keeps every master and adds exactly the live nodes.
  lemma {:induction false} ListedMasters(t: Tables, infos: seq<NodeInfo>, reachable: set<Node>)
    ensures var u := Listed(t, infos, reachable);
            && u.masters.Keys == t.masters.Keys + LiveNodes(infos)
            && (forall n :: n in t.masters ==> u.masters[n] == t.masters[n])
  {
    if infos == [] {
      assert LiveNodes(infos) == {};
    } else {
      ListedMasters(t, infos[..|infos| - 1], reachable);
      LiveNodesStep(infos);
    }
  }

  // After a refresh, from any tables at all, the masters are exactly the live nodes of the listing;
  // those already known are kept as they were.
  lemma MastersAreLiveNodes(t: Tables, infos: seq<NodeInfo>, reachable: set<Node>)
    ensures var u := Refresh(t, infos, reachable);
            && u.masters.Keys == LiveNodes(infos)
            && (forall n :: n in t.masters && n in LiveNodes(infos) ==> u.masters[n] == t.masters[n])
  {
    hide Listed;
    ListedMasters(t, infos, reachable);
  }

  lemma {:induction false} ListedIdsComplete(t: Tables, infos: seq<NodeInfo>, reachable: set<Node>)
    requires IdsComplete(t)
    ensures IdsComplete(Listed(t, infos, reachable))
  {
    if infos != [] {
      ListedIdsComplete(t, infos[..|infos| - 1], reachable);
    }
  }

  // Some master that leaves the table carries this id.
  ghost predicate LeavesWith(t: Tables, infos: seq<NodeInfo>, id: NodeId) {
    exists n :: n in t.masters && n !in LiveNodes(infos) && t.masters[n].id == id
  }

  // Entry i of the listing makes the client add a master: a live node it does not know, listed for the
  // first time.
  ghost predicate Adds(t: Tables, infos: seq<NodeInfo>, i: nat)
    requires i < |infos|
  {
    && Live(infos[i]) && infos[i].node !in t.masters
    && forall j :: 0 <= j < i && Live(infos[j]) ==> infos[j].node != infos[i].node
  }

  // The listing gives this id to a master it adds; given is the last such master.
  ghost predicate Assigned(t: Tables, infos: seq<NodeInfo>, id: NodeId) {
    exists i :: 0 <= i < |infos| && Adds(t, infos, i) && infos[i].id == id
  }

  ghost function Given(t: Tables, infos: seq<NodeInfo>, id: NodeId): Option<Node> {
    if infos == [] then None
    else
      var last := |infos| - 1;
      if Adds(t, infos, last) && infos[last].id == id then Some(infos[last].node) else Given(t, infos[..last], id)
  }

  lemma {:induction false} GivenIfAssigned(t: Tables, infos: seq<NodeInfo>, id: NodeId)
    ensures Given(t, infos, id).Some? <==> Assigned(t, infos, id)
  {
    if infos != [] {
      var last := |infos| - 1;
      var front := infos[..last];
      GivenIfAssigned(t, front, id);
      assert forall i :: 0 <= i < last ==> front[i] == infos[i] && (Adds(t, front, i) <==> Adds(t, infos, i));
    }
  }

  lemma LastAdds(t: Tables, infos: seq<NodeInfo>)
    requires infos != []
    ensures var last := |infos| - 1;
            Adds(t, infos, last)
            <==> Live(infos[last]) && infos[last].node !in t.masters.Keys + LiveNodes(infos[..last])
  {
    var last := |infos| - 1;
    var front := infos[..last];
    assert forall j :: 0 <= j < last ==> front[j] == infos[j];
    if infos[last].node in LiveNodes(front) {
      var j :| 0 <= j < |front| && Live(front[j]) && front[j].node == infos[last].node;
      assert Live(infos[j]);
    }
    if j: nat :| j < last && Live(infos[j]) && infos[j].node == infos[last].node {
      assert front[j].node in LiveNodes(front);
    }
  }

  lemma {:induction false} ListedIds(t: Tables, infos: seq<NodeInfo>, reachable: set<Node>, id: NodeId)
    ensures var u := Listed(t, infos, reachable);
            match Given(t, infos, id)
            case Some(n) =>
              id in u.ids && u.ids[id] == n && n in LiveNodes(infos) && n in u.masters && u.masters[n].id == id
            case None => (id in u.ids <==> id in t.ids) && (id in t.ids ==> u.ids[id] == t.ids[id])
  {
    if infos != [] {
      var front := infos[..|infos| - 1];
      ListedIds(t, front, reachable, id);
      LiveNodesStep(infos);
      ListedMasters(t, front, reachable);
      LastAdds(t, infos);
    }
  }

  // An added master carries the id of the entry that added it.
  lemma {:induction false} AddedUnder(t: Tables, infos: seq<NodeInfo>, reachable: set<Node>, n: Node)
    requires n in Listed(t, infos, reachable).masters && n !in t.masters
    ensures Assigned(t, infos, Listed(t, infos, reachable).masters[n].id)
  {
    if infos != [] {
      var last := |infos| - 1;
      var front := infos[..last];
      var u := Listed(t, front, reachable);
      LastAdds(t, infos);
      ListedMasters(t, front, reachable);
      if n in u.masters {
        AddedUnder(t, front, reachable, n);
        var i :| 0 <= i < last && Adds(t, front, i) && front[i].id == u.masters[n].id;
        assert forall j :: 0 <= j < last ==> front[j] == infos[j];
        assert Adds(t, infos, i) && infos[i].id == u.masters[n].id;
      } else {
        assert Adds(t, infos, last) && infos[last].id == Listed(t, infos, reachable).masters[n].id;
      }
    }
  }

  // get_redis_master_node: the master an id leads to.
  function LookUp(t: Tables, id: NodeId): Option<Node> {
    if id in t.ids && t.ids[id] in t.masters then Some(t.ids[id]) else None
  }

  // The address an id is to lead to after the listing: the last added master it is given to, or as before.
  ghost function Entry(t: Tables, infos: seq<NodeInfo>, id: NodeId): Option<Node> {
    var given := Given(t, infos, id);
    if given.Some? then given else if id in t.ids then Some(t.ids[id]) else None
  }

  lemma EntryAfter(t: Tables, infos: seq<NodeInfo>, reachable: set<Node>, id: NodeId)
    ensures var u, entry := Refresh(t, infos, reachable), Entry(t, infos, id);
            && (id in u.ids <==> !LeavesWith(t, infos, id) && entry.Some?)
            && (id in u.ids ==> u.ids[id] == entry.value)
    ensures Dangles(Refresh(t, infos, reachable), id)
            <==> Dangles(t, id) && !Assigned(t, infos, id) && !LeavesWith(t, infos, id)
  {
    hide Listed, LiveNodes, Given, Assigned;
    ListedMasters(t, infos, reachable);
    ListedIds(t, infos, reachable, id);
    GivenIfAssigned(t, infos, id);
    var l := Listed(t, infos, reachable);
    if id in t.ids && t.ids[id] in l.masters && t.ids[id] !in t.masters {
      AddedUnder(t, infos, reachable, t.ids[id]);
    }
  }

  // After a refresh an id leads exactly to its entry, unless a departing master takes the id along or
  // the entry's node is not live.
  lemma LookUpAfter(t: Tables, infos: seq<NodeInfo>, reachable: set<Node>, id: NodeId)
    ensures var entry := Entry(t, infos, id);
            LookUp(Refresh(t, infos, reachable), id)
            == if !LeavesWith(t, infos, id) && entry.Some? && entry.value in LiveNodes(infos) then entry else None
  {
    hide Refresh, LiveNodes, Entry, LeavesWith;
    EntryAfter(t, infos, reachable, id);
    MastersAreLiveNodes(t, infos, reachable);
  }

  // A listed live master is found by its listed id if and only if no departing master carries the id
  // and the id's entry is the master: the listing gives it last to this master, or to none and it
  // already led there.
  lemma FoundByListedId(t: Tables, infos: seq<NodeInfo>, reachable: set<Node>, i: nat)
    requires i < |infos| && Live(infos[i])
    ensures LookUp(Refresh(t, infos, reachable), infos[i].id) == Some(infos[i].node)
            <==> !LeavesWith(t, infos, infos[i].id) && Entry(t, infos, infos[i].id) == Some(infos[i].node)
  {
    hide Refresh, Entry, LeavesWith, LookUp;
    LookUpAfter(t, infos, reachable, infos[i].id);
    assert infos[i].node in LiveNodes(infos);
  }

  // An entry that does not lead to a present master carrying the id.
  ghost predicate Dangles(t: Tables, id: NodeId) {
    id in t.ids && !(t.ids[id] in t.masters && t.masters[t.ids[id]].id == id)
  }

  // From any tables at all, the ids are valid afterwards exactly if every dangling entry is repaired:
  // its id is given to an added master, or goes with a departing one.
  lemma IdsValidIffRepaired(t: Tables, infos: seq<NodeInfo>, reachable: set<Node>)
    ensures IdsValid(Refresh(t, infos, reachable))
            <==> forall id :: Dangles(t, id) ==> Assigned(t, infos, id) || LeavesWith(t, infos, id)
  {
    var u := Refresh(t, infos, reachable);
    forall id
      ensures Dangles(u, id) <==> Dangles(t, id) && !Assigned(t, infos, id) && !LeavesWith(t, infos, id)
    {
      EntryAfter(t, infos, reachable, id);
    }
    ValidIfNoneDangles(u);
  }

  lemma ValidIfNoneDangles(t: Tables)
    ensures IdsValid(t) <==> forall id :: !Dangles(t, id)
  {
    if forall id :: !Dangles(t, id) {
      forall id | id in t.ids
        ensures t.ids[id] in t.masters && t.masters[t.ids[id]].id == id
      {
        assert !Dangles(t, id);
      }
    }
  }

  // Valid ids stay valid: an entry that would dangle goes with its master.
  lemma IdsStayValid(t: Tables, infos: seq<NodeInfo>, reachable: set<Node>)
    requires IdsValid(t)
    ensures IdsValid(Refresh(t, infos, reachable))
  {
    hide Refresh, Listed, LiveNodes;
    ValidIfNoneDangles(t);
    IdsValidIffRepaired(t, infos, reachable);
  }

  // A dangling entry may survive.
  lemma DanglingEntrySurvives()
    ensures var t := Tables(map[], map["a27a" := Node("10.0.0.1", 6379)], []);
            Dangles(t, "a27a") && Dangles(Refresh(t, [], {}), "a27a")
  {
  }

  // The listing has the node live under the id.
  ghost predicate Lists(infos: seq<NodeInfo>, node: Node, id: NodeId) {
    exists i :: 0 <= i < |infos| && Live(infos[i]) && infos[i].node == node && infos[i].id == id
  }

  lemma {:induction false} GivenIsListed(t: Tables, infos: seq<NodeInfo>, id: NodeId)
    requires Given(t, infos, id).Some?
    ensures Lists(infos, Given(t, infos, id).value, id)
  {
    var last := |infos| - 1;
    var front := infos[..last];
    if !(Adds(t, infos, last) && infos[last].id == id) {
      GivenIsListed(t, front, id);
      var n := Given(t, infos, id).value;
      var i :| 0 <= i < |front| && Live(front[i]) && front[i].node == n && front[i].id == id;
      assert infos[i] == front[i];
    }
  }

  // After a refresh every entry of the id table names a live master listed with that id if and only if
  // so do the old entries that are neither given anew nor taken along by a departing master.
  lemma EntriesAreListedIff(t: Tables, infos: seq<NodeInfo>, reachable: set<Node>)
    ensures (var u := Refresh(t, infos, reachable); forall id :: id in u.ids ==> Lists(infos, u.ids[id], id))
            <==> forall id :: id in t.ids && !Assigned(t, infos, id) && !LeavesWith(t, infos, id) ==>
                                Lists(infos, t.ids[id], id)
  {
    hide Refresh, Lists, Assigned, LeavesWith;
    var u := Refresh(t, infos, reachable);
    forall id
      ensures id in u.ids && !Lists(infos, u.ids[id], id)
              <==> id in t.ids && !Assigned(t, infos, id) && !LeavesWith(t, infos, id) && !Lists(infos, t.ids[id], id)
    {
      EntryAfter(t, infos, reachable, id);
      GivenIfAssigned(t, infos, id);
      if Given(t, infos, id).Some? {
        GivenIsListed(t, infos, id);
      }
    }
  }

  // No two masters carry the same id.
  ghost predicate IdsUnique(t: Tables) {
    forall m, n :: m in t.masters && n in t.masters && t.masters[m].id == t.masters[n].id ==> m == n
  }

  // No two live entries of the listing share their address or their id.
  ghost predicate Distinct(infos: seq<NodeInfo>) {
    forall i, j :: 0 <= i < j < |infos| && Live(infos[i]) && Live(infos[j]) ==>
                     infos[i].node != infos[j].node && infos[i].id != infos[j].id
  }

  // From tables in good order and a sensible listing, a listed live master is found by its listed id if
  // and only if it was neither renamed nor moved: a known address is known under that id, and for an
  // unknown address no master with that id departs.
  lemma FoundUnlessMovedOrRenamed(t: Tables, infos: seq<NodeInfo>, reachable: set<Node>, i: nat)
    requires IdsValid(t) && IdsComplete(t) && IdsUnique(t) && Distinct(infos)
    requires i < |infos| && Live(infos[i])
    ensures var node, id := infos[i].node, infos[i].id;
            LookUp(Refresh(t, infos, reachable), id) == Some(node)
            <==> if node in t.masters then t.masters[node].id == id else !LeavesWith(t, infos, id)
  {
    hide Refresh, LookUp, Given;
    var node, id := infos[i].node, infos[i].id;
    FoundByListedId(t, infos, reachable, i);
    GivenIfAssigned(t, infos, id);
    assert node in LiveNodes(infos);
    if Assigned(t, infos, id) {
      GivenIsListed(t, infos, id);
    }
    if node !in t.masters {
      assert Adds(t, infos, i);
    }
  }

  // Completeness is not kept: a present master is found by the id it was added under exactly when no
  // departing master carries the same id, that is, when the node did not merely change its address.
  lemma FoundByIdUnlessMoved(t: Tables, infos: seq<NodeInfo>, reachable: set<Node>, n: Node)
    requires IdsComplete(t) && n in Refresh(t, infos, reachable).masters
    ensures var u := Refresh(t, infos, reachable);
            u.masters[n].id in u.ids <==> !LeavesWith(t, infos, u.masters[n].id)
  {
    hide Listed, LiveNodes;
    ListedMasters(t, infos, reachable);
    ListedIdsComplete(t, infos, reachable);
  }

  // A master that keeps its id and changes its address ends up present but not found by its id.
  lemma MovedMasterIsLost()
    ensures var before, after := Node("10.0.0.1", 6379), Node("10.0.0.2", 6379);
            var t := Tables(map[before := Master("a27a", Open, 0)], map["a27a" := before], []);
            var u := Refresh(t, [NodeInfo(after, "a27a", true, false, false, [])], {after});
            && IdsValid(t) && IdsComplete(t)
            && after in u.masters && u.masters[after].id == "a27a" && "a27a" !in u.ids && !IdsComplete(u)
  {
    var before, after := Node("10.0.0.1", 6379), Node("10.0.0.2", 6379);
    var info := NodeInfo(after, "a27a", true, false, false, []);
    var t := Tables(map[before := Master("a27a", Open, 0)], map["a27a" := before], []);
    assert LiveNodes([info]) == {after} by { assert [info][0] == info; }
    MastersAreLiveNodes(t, [info], {after});
    assert before.host[7] != after.host[7];
    assert [info][..0] == [];
    var l := Listed(t, [info], {after});
    assert l == List(Listed(t, [], {after}), info, {after});
    assert l.masters[before].id == "a27a";
    assert before in l.masters.Keys - {after};
  }

  // A master that changes its id and keeps its address is found by the old id and not by the new one.
  lemma RenamedMasterIsLost()
    ensures var n := Node("10.0.0.1", 6379);
            var t := Tables(map[n := Master("a27a", Open, 0)], map["a27a" := n], []);
            var u := Refresh(t, [NodeInfo(n, "b38b", true, false, false, [])], {n});
            && IdsValid(t) && IdsComplete(t)
            && n in u.masters && LookUp(u, "b38b") == None && LookUp(u, "a27a") == Some(n)
  {
    var n := Node("10.0.0.1", 6379);
    var info := NodeInfo(n, "b38b", true, false, false, []);
    var t := Tables(map[n := Master("a27a", Open, 0)], map["a27a" := n], []);
    assert LiveNodes([info]) == {n} by { assert [info][0] == info; }
    assert [info][..0] == [];
    MastersAreLiveNodes(t, [info], {n});
    LookUpAfter(t, [info], {n}, "a27a");
    LookUpAfter(t, [info], {n}, "b38b");
    assert "a27a"[0] != "b38b"[0];
  }

  // --- slots ---

  predicate Claimed(infos: seq<NodeInfo>, slot: int) {
    exists i :: 0 <= i < |infos| && Live(infos[i]) && Claims(infos[i], slot)
  }

  // The last live node that claims the slot.
  function Claimant(infos: seq<NodeInfo>, slot: int): Node
    requires Claimed(infos, slot)
  {
    var front, last := infos[..|infos| - 1], infos[|infos| - 1];
    if Live(last) && Claims(last, slot) then last.node
    else assert Claimed(front, slot) by { ClaimedBefore(infos, slot); } Claimant(front, slot)
  }

  lemma ClaimedBefore(infos: seq<NodeInfo>, slot: int)
    requires Claimed(infos, slot)
    requires !(Live(infos[|infos| - 1]) && Claims(infos[|infos| - 1], slot))
    ensures Claimed(infos[..|infos| - 1], slot)
  {
    var i :| 0 <= i < |infos| && Live(infos[i]) && Claims(infos[i], slot);
    assert infos[..|infos| - 1][i] == infos[i];
  }

  lemma ClaimedAfter(infos: seq<NodeInfo>, slot: int)
    requires infos != [] && Claimed(infos[..|infos| - 1], slot)
    ensures Claimed(infos, slot)
  {
    var front := infos[..|infos| - 1];
    var i :| 0 <= i < |front| && Live(front[i]) && Claims(front[i], slot);
    assert infos[i] == front[i];
  }

  lemma {:induction false} ClaimantIsLive(infos: seq<NodeInfo>, slot: int)
    requires Claimed(infos, slot)
    ensures Claimant(infos, slot) in LiveNodes(infos)
  {
    var last := infos[|infos| - 1];
    LiveNodesStep(infos);
    if !(Live(last) && Claims(last, slot)) {
      ClaimedBefore(infos, slot);
      ClaimantIsLive(infos[..|infos| - 1], slot);
    }
  }

  lemma {:induction false} ListedSlots(t: Tables, infos: seq<NodeInfo>, reachable: set<Node>, slot: nat)
    requires slot < |t.slots|
    ensures Listed(t, infos, reachable).slots[slot]
            == if Claimed(infos, slot) then Claimant(infos, slot) else t.slots[slot]
  {
    if infos != [] {
      var front, last := infos[..|infos| - 1], infos[|infos| - 1];
      ListedSlots(t, front, reachable, slot);
      if Live(last) && Claims(last, slot) {
        assert Claimed(infos, slot);
      } else if Claimed(infos, slot) {
        ClaimedBefore(infos, slot);
      } else if Claimed(front, slot) {
        ClaimedAfter(infos, slot);
      }
    }
  }

  // Every slot inside a listed live segment leads to a present master, the last that claims it;
  // every other slot is left as it was.
  lemma SlotsLeadToMasters(t: Tables, infos: seq<NodeInfo>, reachable: set<Node>, slot: nat)
    requires slot < |t.slots|
    ensures var u := Refresh(t, infos, reachable);
            && (Claimed(infos, slot) ==> u.slots[slot] == Claimant(infos, slot) && u.slots[slot] in u.masters)
            && (!Claimed(infos, slot) ==> u.slots[slot] == t.slots[slot])
  {
    hide Listed, LiveNodes, Claimed, Claimant;
    ListedSlots(t, infos, reachable, slot);
    if Claimed(infos, slot) {
      ClaimantIsLive(infos, slot);
      MastersAreLiveNodes(t, infos, reachable);
    }
  }

  // --- the same in the fields of the listing ---

  // After a refresh, from any tables, the masters are the addresses listed as a master and not as failed.
  lemma MasterIffListed(t: Tables, infos: seq<NodeInfo>, reachable: set<Node>, n: Node)
    ensures n in Refresh(t, infos, reachable).masters
            <==> exists i :: 0 <= i < |infos| && infos[i].node == n && infos[i].master && !infos[i].fail
  {
    hide Refresh;
    MastersAreLiveNodes(t, infos, reachable);
  }

  // A slot goes to the last node, listed as a master and not as failed, with a segment around it;
  // without such a node it stays where it was.
  lemma SlotGoesToLast(t: Tables, infos: seq<NodeInfo>, reachable: set<Node>, slot: nat)
    requires slot < |t.slots|
    ensures var u := Refresh(t, infos, reachable);
            forall i :: && 0 <= i < |infos| && infos[i].master && !infos[i].fail && Around(infos[i].slots, slot)
                        && (forall j :: i < j < |infos| && infos[j].master && !infos[j].fail ==>
                                          !Around(infos[j].slots, slot)) ==>
                          u.slots[slot] == infos[i].node && infos[i].node in u.masters
    ensures (forall i :: 0 <= i < |infos| && infos[i].master && !infos[i].fail ==> !Around(infos[i].slots, slot)) ==>
              Refresh(t, infos, reachable).slots[slot] == t.slots[slot]
  {
    hide Refresh, Claimant, LiveNodes;
    SlotsLeadToMasters(t, infos, reachable, slot);
    forall i | && 0 <= i < |infos| && infos[i].master && !infos[i].fail && Around(infos[i].slots, slot)
               && (forall j :: i < j < |infos| && infos[j].master && !infos[j].fail ==> !Around(infos[j].slots, slot))
      ensures Claimed(infos, slot) && Claimant(infos, slot) == infos[i].node
    {
      assert Live(infos[i]) && Claims(infos[i], slot);
      ClaimantIsLast(infos, slot, i);
    }
  }

  // The slot lies between the ends of one of the segments.
  predicate Around(slots: seq<(int, int)>, slot: int) {
    exists s :: s in slots && s.0 <= slot && slot <= s.1
  }

  lemma {:induction false} ClaimantIsLast(infos: seq<NodeInfo>, slot: int, i: nat)
    requires i < |infos| && Live(infos[i]) && Claims(infos[i], slot)
    requires forall j :: i < j < |infos| && Live(infos[j]) ==> !Claims(infos[j], slot)
    ensures Claimed(infos, slot) && Claimant(infos, slot) == infos[i].node
  {
    var last := |infos| - 1;
    if i < last {
      var front := infos[..last];
      assert front[i] == infos[i] && forall j :: i < j < last ==> front[j] == infos[j];
      ClaimantIsLast(front, slot, i);
    }
  }

  // The replicas returned are the entries listed as a replica and neither as failed nor as a master, each
  // once and in the order of the listing.
  lemma {:induction false} ReplicasAreListed(infos: seq<NodeInfo>) returns (at: seq<nat>)
    ensures |at| == |LiveReplicas(infos)|
    ensures forall k :: 0 <= k < |at| ==> at[k] < |infos| && LiveReplicas(infos)[k] == infos[at[k]]
    ensures forall k, l :: 0 <= k < l < |at| ==> at[k] < at[l]
    ensures forall i :: 0 <= i < |infos| ==> (i in at <==> infos[i].replica && !infos[i].fail && !infos[i].master)
  {
    if infos == [] {
      at := [];
    } else {
      var last := |infos| - 1;
      var front := infos[..last];
      var before := ReplicasAreListed(front);
      assert forall i :: 0 <= i < last ==> front[i] == infos[i];
      at := before + if infos[last].replica && !infos[last].fail && !infos[last].master then [last] else [];
    }
  }

  // --- the source ---

  class Client {
    var masters: map<Node, Master>
    var ids: map<NodeId, Node>
    const slot2node: array<Node>

    constructor (slots: nat)
      ensures masters == map[] && ids == map[] && slot2node.Length == slots && fresh(slot2node)
    {
      masters, ids := map[], map[];
      slot2node := new Node[slots](_ => Node("", 0));
    }

    ghost function Contents(): (t: Tables)
      reads this, slot2node
    {
      Tables(masters, ids, slot2node[..])
    }

    method UpdateSlots(info: NodeInfo)
      requires InRange(info, slot2node.Length)
      modifies slot2node
      ensures slot2node[..] == Claim(old(slot2node[..]), info)
    {
      for i := 0 to |info.slots|
        invariant forall s :: 0 <= s < slot2node.Length ==>
                    slot2node[s] == if ClaimsBefore(info, i, s) then info.node else old(slot2node[s])
      {
        var slot := info.slots[i].0;
        while slot <= info.slots[i].1
          invariant info.slots[i].0 <= slot
          invariant forall s :: 0 <= s < slot2node.Length ==>
                      slot2node[s]
                      == if ClaimsBefore(info, i, s) || (info.slots[i].0 <= s < slot && s <= info.slots[i].1)
                         then info.node else old(slot2node[s])
        {
          slot2node[slot] := info.node;
          slot := slot + 1;
        }
      }
    }

    method AddMasterNode(info: NodeInfo, reachable: set<Node>) returns (connected: bool)
      requires info.node !in masters
      modifies this
      ensures Contents() == AddMaster(old(Contents()), info, reachable) && connected == (info.node in reachable)
    {
      connected := info.node in reachable;
      masters := masters[info.node := Master(info.id, if connected then Open else Closed, 0)];
      ids := ids[info.id := info.node];
    }

    method ClearInvalidMasterNodes(live: set<Node>)
      modifies this
      ensures Contents() == Clear(old(Contents()), live)
    {
      ghost var all, gone := masters, {};
      var rest := masters.Keys;
      while rest != {}
        invariant rest <= all.Keys && gone == all.Keys - rest - live
        invariant masters == all - gone && ids == old(ids) - IdsOf(all, gone)
        decreases rest
      {
        var node :| node in rest;
        rest := rest - {node};
        if node !in live {
          var nodeid := masters[node].id;
          masters := masters - {node};
          gone := gone + {node};
          ids := ids - {nodeid};
        }
      }
    }

    // Returns the live replicas listed.
    method ClearAndUpdateMasterNodes(infos: seq<NodeInfo>, reachable: set<Node>) returns (replicas: seq<NodeInfo>)
      requires AllInRange(infos, slot2node.Length)
      modifies this, slot2node
      ensures Contents() == Refresh(old(Contents()), infos, reachable)
      ensures replicas == LiveReplicas(infos)
    {
      var table := {};
      replicas := [];
      assert infos[..0] == [];
      for i := 0 to |infos|
        invariant Contents() == Listed(old(Contents()), infos[..i], reachable)
        invariant table == LiveNodes(infos[..i]) && replicas == LiveReplicas(infos[..i])
      {
        var info := infos[i];
        assert infos[..i + 1][..i] == infos[..i];
        LiveNodesStep(infos[..i + 1]);
        if Live(info) {
          UpdateSlots(info);
          table := table + {info.node};
          if info.node !in masters {
            var _ := AddMasterNode(info, reachable);
          }
        } else if info.replica && !info.fail {
          replicas := replicas + [info];
        }
      }
      assert infos[..|infos|] == infos;
      ClearInvalidMasterNodes(table);
    }
  }

  predicate ClaimsBefore(info: NodeInfo, i: nat, slot: int)
    requires i <= |info.slots|
  {
    exists k :: 0 <= k < i && info.slots[k].0 <= slot <= info.slots[k].1
  }

  function LiveReplicas(infos: seq<NodeInfo>): seq<NodeInfo> {
    if infos == [] then []
    else
      var last := infos[|infos| - 1];
      LiveReplicas(infos[..|infos| - 1]) + if !Live(last) && last.replica && !last.fail then [last] else []
  }
}
