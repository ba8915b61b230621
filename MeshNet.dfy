/** The mesh-cloud and segment-consistency engine: one object holding the node table, its indexes and every result of a run. */
module MeshNet {
  import opened Common
  import opened MeshTypes
  import opened CloudSpec
  import opened Consistency
  import opened SegmentVote
  import opened CloudCheck

  class MeshNet {
    /** The node table and its iteration order (a Python dict keeps insertion order). */
    var nodes: map<NodeId, Node>
    const ids: seq<NodeId>
    /** `InCloud` of every node, kept as an index beside the table. */
    var inCloud: map<NodeId, Option<NodeId>>
    /** Resolves any MAC a node reports as a neighbour to the id of the node that owns it. */
    const macToId: map<Mac, NodeId>
    /** The node-info collaborator's `IsOnline` answer, taken from the snapshot. */
    const online: set<NodeId>
    /** The gateway collaborator's `Segments()`. */
    const knownSegments: set<int>
    /** `PeerName` of every key file in the gateway key registry. */
    var peerNames: map<string, string>

    /** The cloud table and its iteration order. */
    var clouds: map<NodeId, Cloud>
    var cloudOrder: seq<NodeId>
    var segStats: map<int, SegStat>
    var moves: map<NodeId, int>
    var alerts: seq<Alert>
    var analyseOnly: bool

    /** The table's shape never changes; the cloud table and `InCloud` always agree. */
    ghost predicate Valid()
      reads this
    {
      Arena(ids, nodes, macToId, inCloud, clouds, cloudOrder)
    }

    /** The state right after construction: no clouds, no moves, no alerts, actions allowed, every node in no cloud. */
    ghost predicate Initial()
      reads this
    {
      && clouds == map[] && cloudOrder == [] && moves == map[] && alerts == [] && !analyseOnly
      && Unassigned(inCloud) == inCloud.Keys
    }

    /** Takes the snapshot of the node and gateway data; the cloud table, statistics, moves and alerts start empty. */
    constructor (nodes: map<NodeId, Node>, ids: seq<NodeId>, macToId: map<Mac, NodeId>, online: set<NodeId>,
                 knownSegments: set<int>, peerNames: map<string, string>)
      requires Distinct(ids) && (forall n :: n in ids <==> n in nodes)
      requires forall m | m in macToId :: macToId[m] in nodes
      ensures Valid() && Initial() && segStats == map[]
      ensures this.nodes == nodes && this.ids == ids && this.macToId == macToId && this.online == online
      ensures this.knownSegments == knownSegments && this.peerNames == peerNames
    {
      this.nodes := nodes;
      this.ids := ids;
      this.macToId := macToId;
      this.online := online;
      this.knownSegments := knownSegments;
      this.peerNames := peerNames;
      inCloud := map x | x in nodes :: None;
      clouds := map[];
      cloudOrder := [];
      segStats := map[];
      moves := map[];
      alerts := [];
      analyseOnly := false;
    }

    /**
     * The consistency pass, node by node in table order: repairs every seen node, counts the online ones
     * into the statistics of their segment, and brings the key registry's peer name in line with the
     * node's hostname. `ok` is false when an online node's key file is missing from the registry.
     */
    method CheckConsistency() returns (ok: bool)
      requires Valid() && Initial() && segStats == map[]
      modifies this`nodes, this`segStats, this`peerNames
      ensures Valid() && Initial()
      ensures ok <==> KeysRegistered(Repaired(old(nodes)), ids, online, old(peerNames))
      ensures ok ==> nodes == Repaired(old(nodes))
      ensures ok ==> segStats == SegStats(nodes, ids, online, knownSegments)
      ensures ok ==> PeerUpdate(nodes, ids, online, old(peerNames)) == Some(peerNames)
    {
      ghost var nodes0 := nodes;
      assert TableOk(ids, nodes0, macToId);
      ok := ConsistencyPass();
      EmptyPartition(nodes, inCloud);
      SameKeysTableOk(ids, nodes0, nodes, macToId);
    }

    /** The loop of the consistency pass over the table, apart from the cloud table it leaves alone. */
    method ConsistencyPass() returns (ok: bool)
      requires TableOk(ids, nodes, macToId) && segStats == map[]
      modifies this`nodes, this`segStats, this`peerNames
      ensures nodes.Keys == old(nodes).Keys
      ensures ok <==> KeysRegistered(Repaired(old(nodes)), ids, online, old(peerNames))
      ensures ok ==> nodes == Repaired(old(nodes))
      ensures ok ==> segStats == SegStats(nodes, ids, online, knownSegments)
      ensures ok ==> PeerUpdate(nodes, ids, online, old(peerNames)) == Some(peerNames)
    {
      ghost var nodes0, peers0 := nodes, peerNames;
      ghost var fixed := Repaired(nodes);
      assert forall n :: n in ids <==> n in nodes0;
      var i := 0;
      while i < |ids|
        invariant 0 <= i <= |ids|
        invariant Distinct(ids) && (forall n :: n in ids <==> n in nodes0)
        invariant RepairedUpTo(ids, nodes0, nodes, i)
        invariant segStats == SegStats(fixed, ids[..i], online, knownSegments)
        invariant PeerUpdate(fixed, ids[..i], online, peers0) == Some(peerNames)
        invariant peerNames.Keys == peers0.Keys
      {
        var x := ids[i];
        RepairedUpToStep(ids, nodes0, nodes, i);
        assert fixed[x] == Repair(nodes[x]);
        ghost var stats0, peers1 := segStats, peerNames;
        var found := CheckNode(x);
        if !found {
          assert UsesKey(fixed[x], x, online) && fixed[x].keyFile !in peers1;
          MissingKey(fixed, ids, online, peers0, i);
          ok := false;
          return;
        }
        SegStatsNext(fixed, ids, i, online, knownSegments);
        PeerUpdateNext(fixed, ids, i, online, peers0);
        i := i + 1;
      }
      AllRepaired(ids, nodes0, nodes);
      assert ids[..i] == ids;
      PeerUpdateFails(fixed, ids, online, peers0);
      ok := true;
    }

    /**
     * One node of the consistency pass: repair, count into the statistics, compare with the peer name.
     * `found` is false when the node compares against a key file missing from the registry.
     */
    method CheckNode(x: NodeId) returns (found: bool)
      requires x in nodes
      modifies this`nodes, this`segStats, this`peerNames
      ensures nodes == old(nodes)[x := Repair(old(nodes[x]))]
      ensures segStats == if Counted(nodes[x], x, online, knownSegments) then AddStat(old(segStats), nodes[x]) else old(segStats)
      ensures found <==> !UsesKey(nodes[x], x, online) || nodes[x].keyFile in old(peerNames)
      ensures found ==> Some(peerNames) == if UsesKey(nodes[x], x, online) then PeerStep(old(peerNames), nodes[x]) else Some(old(peerNames))
      ensures peerNames.Keys == old(peerNames).Keys
    {
      var n := RepairNode(x);
      found := true;
      if n.status != Unknown && x in online {
        CountNode(n);
        if n.keyFile != "" {
          found := ComparePeerName(n);
        }
      }
    }

    /** Repairs node `x` in the table and returns its new entry. */
    method RepairNode(x: NodeId) returns (n: Node)
      requires x in nodes
      modifies this`nodes
      ensures n == Repair(old(nodes[x])) && nodes == old(nodes)[x := n]
    {
      n := nodes[x];
      if n.status != Unknown {
        if n.status == Uplink && n.keyDir.None? {
          n := n.(status := Passive);
        }
        if n.segment.None? && n.destSeg.Some? {
          n := n.(segment := n.destSeg);
        } else if n.segment.None? && n.keyDir.Some? {
          n := n.(segment := n.keyDir);
        }
        nodes := nodes[x := n];
      }
    }

    /** Counts an online node into the statistics of its segment, when the gateways know that segment. */
    method CountNode(n: Node)
      modifies this`segStats
      ensures segStats == if n.segment.Some? && n.segment.value in knownSegments then AddStat(old(segStats), n) else old(segStats)
    {
      if n.segment.Some? && n.segment.value in knownSegments {
        var seg := n.segment.value;
        if seg !in segStats {
          segStats := segStats[seg := SegStat(0, 0, 0)];
        }
        var st := segStats[seg];
        segStats := segStats[seg := SegStat(st.nodes + 1, st.clients + n.clients, if n.status == Uplink then st.uplinks + 1 else st.uplinks)];
      }
    }

    /** Overwrites the peer name of the node's key file with its hostname when they differ; `found` is false when the key file is not registered. */
    method ComparePeerName(n: Node) returns (found: bool)
      modifies this`peerNames
      ensures found <==> n.keyFile in old(peerNames)
      ensures peerNames.Keys == old(peerNames).Keys
      ensures found ==> PeerStep(old(peerNames), n) == Some(peerNames)
    {
      if n.keyFile !in peerNames {
        return false;
      }
      if Norm(n.name) != Norm(peerNames[n.keyFile]) {
        peerNames := peerNames[n.keyFile := n.name];
      }
      found := true;
    }

    /** Re-points every node of cloud `from` to cloud `to`, in table order, and returns the new index. */
    method Repoint(ic: map<NodeId, Option<NodeId>>, from: NodeId, to: NodeId) returns (r: map<NodeId, Option<NodeId>>)
      requires Distinct(ids) && (forall n :: n in ids <==> n in ic)
      ensures r == Repointed(ic, from, to)
    {
      r := ic;
      var i := 0;
      while i < |ids|
        invariant 0 <= i <= |ids|
        invariant r.Keys == ic.Keys
        invariant forall x | x in ic :: r[x] == if x in ids[..i] && ic[x] == Some(from) then Some(to) else ic[x]
      {
        var x := ids[i];
        assert x !in ids[..i];
        assert ids[..i + 1] == ids[..i] + [x];
        if r[x] == Some(from) {
          r := r[x := Some(to)];
        }
        i := i + 1;
      }
      assert ids[..i] == ids;
    }

    /** Merges cloud `other` into cloud `cloudId`: clients and members are appended, the firmware minimum kept, `other`'s members re-pointed and `other` deleted. */
    method MergeClouds(cloudId: NodeId, other: NodeId)
      requires Valid()
      requires cloudId in clouds && other in clouds && cloudId != other && clouds[cloudId].members != []
      modifies this`inCloud, this`clouds, this`cloudOrder
      ensures Valid()
      ensures clouds == old(clouds[cloudId := MergeCloud(clouds[cloudId], clouds[other])] - {other})
      ensures inCloud == Repointed(old(inCloud), other, cloudId)
      ensures cloudOrder == RemoveId(old(cloudOrder), other)
      ensures Unassigned(inCloud) == old(Unassigned(inCloud))
    {
      ghost var ic0, cs0, order0 := inCloud, clouds, cloudOrder;
      inCloud := Repoint(inCloud, other, cloudId);
      clouds := clouds[cloudId := MergeCloud(clouds[cloudId], clouds[other])] - {other};
      cloudOrder := RemoveId(cloudOrder, other);
      MergeKeepsArena(ids, nodes, macToId, ic0, cs0, order0, cloudId, other);
    }

    /** Node `n` joins cloud `cloudId`: its clients are added, it is appended to the members and points at the cloud. */
    method JoinCloud(cloudId: NodeId, n: NodeId)
      requires Valid()
      requires cloudId in clouds && n in nodes && inCloud[n].None? && nodes[n].status != Unknown
      requires clouds[cloudId].members == [] ==> n == cloudId
      modifies this`inCloud, this`clouds
      ensures Valid()
      ensures clouds == old(clouds[cloudId := AddMember(nodes, clouds[cloudId], n)])
      ensures inCloud == old(inCloud[n := Some(cloudId)])
    {
      ghost var cs0, ic0 := clouds, inCloud;
      clouds := clouds[cloudId := AddMember(nodes, clouds[cloudId], n)];
      inCloud := inCloud[n := Some(cloudId)];
      AddKeepsArena(ids, nodes, macToId, ic0, cs0, cloudOrder, cloudId, n);
    }

    /**
     * Adds node `n` and, recursively, every node it reaches to cloud `cloudId`.
     * Terminates because a recursive call only follows the assignment of one more node.
     */
    method AddNeighbour2Cloud(cloudId: NodeId, n: NodeId, ghost from: NodeId)
      requires Valid()
      requires cloudId in clouds && n in nodes
      requires clouds[cloudId].members == [] ==> n == cloudId && inCloud[n] == None
      requires clouds[cloudId].members != [] ==> from in clouds[cloudId].members && Adjacent(nodes, macToId, from, n)
      requires OthersClosed(nodes, macToId, inCloud, clouds, cloudId) && AllConnected(nodes, macToId, clouds)
      modifies this`inCloud, this`clouds, this`cloudOrder
      decreases Unassigned(inCloud), 3
      ensures Valid()
      ensures Grew(cloudId, old(clouds), old(inCloud), clouds, inCloud)
      ensures Unassigned(inCloud) <= old(Unassigned(inCloud))
      ensures nodes[n].status != Unknown ==> inCloud[n] == Some(cloudId)
      ensures old(inCloud[n]).None? && nodes[n].status != Unknown ==> NeighboursIn(n, cloudId)
      ensures OthersClosed(nodes, macToId, inCloud, clouds, cloudId) && AllConnected(nodes, macToId, clouds)
      ensures MembersReached(nodes, macToId, inCloud, Gained(old(clouds), clouds, cloudId), cloudId)
    {
      GrewReflexive(cloudId, clouds, inCloud);
      var node := nodes[n];
      if node.status != Unknown && n !in clouds[cloudId].members {
        if inCloud[n].None? {
          JoinAndSpread(cloudId, n, from);
        } else if inCloud[n] == Some(cloudId) {
          // A node pointing at this cloud is one of its members.
          assert false;
        } else {
          AbsorbCloudOf(cloudId, n, from);
        }
      } else {
        assert Gained(old(clouds), clouds, cloudId) == [];
      }
    }

    /** Node `n` belongs to another cloud, reached over a link from member `from`: that whole cloud merges into cloud `cloudId`. */
    method AbsorbCloudOf(cloudId: NodeId, n: NodeId, ghost from: NodeId)
      requires Valid()
      requires cloudId in clouds && n in nodes && inCloud[n].Some? && inCloud[n] != Some(cloudId)
      requires from in clouds[cloudId].members && Adjacent(nodes, macToId, from, n)
      requires OthersClosed(nodes, macToId, inCloud, clouds, cloudId) && AllConnected(nodes, macToId, clouds)
      modifies this`inCloud, this`clouds, this`cloudOrder
      ensures Valid()
      ensures Grew(cloudId, old(clouds), old(inCloud), clouds, inCloud)
      ensures Unassigned(inCloud) == old(Unassigned(inCloud))
      ensures inCloud[n] == Some(cloudId)
      ensures OthersClosed(nodes, macToId, inCloud, clouds, cloudId) && AllConnected(nodes, macToId, clouds)
      ensures MembersReached(nodes, macToId, inCloud, Gained(old(clouds), clouds, cloudId), cloudId)
    {
      ghost var cs0, ic0 := clouds, inCloud;
      var d := inCloud[n].value;
      assert n in cs0[d].members;
      MergeClouds(cloudId, d);
      MergeKeepsClosure(nodes, macToId, cs0, ic0, cloudId, d);
      MergeKeepsConnected(nodes, macToId, cs0, cloudId, d, from, n);
    }

    /** Node `n`, in no cloud yet, joins cloud `cloudId`, and then so does every node it reaches. */
    method JoinAndSpread(cloudId: NodeId, n: NodeId, ghost from: NodeId)
      requires Valid()
      requires cloudId in clouds && n in nodes && inCloud[n].None? && nodes[n].status != Unknown
      requires clouds[cloudId].members == [] ==> n == cloudId
      requires clouds[cloudId].members != [] ==> from in clouds[cloudId].members && Adjacent(nodes, macToId, from, n)
      requires OthersClosed(nodes, macToId, inCloud, clouds, cloudId) && AllConnected(nodes, macToId, clouds)
      modifies this`inCloud, this`clouds, this`cloudOrder
      decreases Unassigned(inCloud), 2
      ensures Valid()
      ensures Grew(cloudId, old(clouds), old(inCloud), clouds, inCloud)
      ensures Unassigned(inCloud) <= old(Unassigned(inCloud))
      ensures inCloud[n] == Some(cloudId) && NeighboursIn(n, cloudId)
      ensures OthersClosed(nodes, macToId, inCloud, clouds, cloudId) && AllConnected(nodes, macToId, clouds)
      ensures MembersReached(nodes, macToId, inCloud, Gained(old(clouds), clouds, cloudId), cloudId)
    {
      ghost var u0, cs0, ic0 := Unassigned(inCloud), clouds, inCloud;
      JoinCloud(cloudId, n);
      JoinKeepsConnected(nodes, macToId, cs0, cloudId, n, from);
      AssignShrinks(ic0, n, cloudId);
      ghost var cs1, ic1 := clouds, inCloud;
      JoinGrows(nodes, cs0, ic0, cloudId, n);
      GrewKeepsOthersClosed(nodes, macToId, cloudId, cs0, ic0, cs1, ic1);
      AddNeighboursOf(cloudId, n, u0);
      GrewTransitive(cloudId, cs0, ic0, cs1, ic1, clouds, inCloud);
      JoinedReached(cs0, cs1, cloudId, n);
    }

    /** The node that joined and then had its neighbours added is, together with what that gained, all the cloud gained. */
    lemma JoinedReached(cs0: map<NodeId, Cloud>, cs1: map<NodeId, Cloud>, c: NodeId, n: NodeId)
      requires c in cs0 && c in cs1 && c in clouds && n in nodes
      requires cs1[c].members == cs0[c].members + [n]
      requires |cs1[c].members| <= |clouds[c].members| && clouds[c].members[..|cs1[c].members|] == cs1[c].members
      requires NeighboursIn(n, c) && MembersReached(nodes, macToId, inCloud, Gained(cs1, clouds, c), c)
      ensures MembersReached(nodes, macToId, inCloud, Gained(cs0, clouds, c), c)
    {
      var s0, s1 := cs0[c].members, cs1[c].members;
      assert s1[..|s0|] == s0;
      assert s1[|s0|..] == [n];
      GainedTwice(nodes, macToId, inCloud, c, s0, s1, clouds[c].members);
    }

    /** The neighbour loop of `AddNeighbour2Cloud`: visits every neighbour MAC of member `n` that resolves to a node id. */
    method AddNeighboursOf(cloudId: NodeId, n: NodeId, ghost bound: set<NodeId>)
      requires Valid()
      requires cloudId in clouds && n in nodes && inCloud[n] == Some(cloudId)
      requires Unassigned(inCloud) < bound
      requires OthersClosed(nodes, macToId, inCloud, clouds, cloudId) && AllConnected(nodes, macToId, clouds)
      modifies this`inCloud, this`clouds, this`cloudOrder
      decreases bound, 1
      ensures Valid()
      ensures Grew(cloudId, old(clouds), old(inCloud), clouds, inCloud)
      ensures Unassigned(inCloud) <= old(Unassigned(inCloud))
      ensures inCloud[n] == Some(cloudId)
      ensures NeighboursIn(n, cloudId)
      ensures OthersClosed(nodes, macToId, inCloud, clouds, cloudId) && AllConnected(nodes, macToId, clouds)
      ensures MembersReached(nodes, macToId, inCloud, Gained(old(clouds), clouds, cloudId), cloudId)
    {
      var neighbours := nodes[n].neighbours;
      GrewReflexive(cloudId, clouds, inCloud);
      var k := 0;
      while k < |neighbours|
        invariant Valid()
        invariant Grew(cloudId, old(clouds), old(inCloud), clouds, inCloud)
        invariant Unassigned(inCloud) <= old(Unassigned(inCloud))
        invariant inCloud[n] == Some(cloudId) && n in clouds[cloudId].members
        invariant k <= |neighbours|
        invariant AllReached(nodes, macToId, inCloud, neighbours, k, cloudId)
        invariant OthersClosed(nodes, macToId, inCloud, clouds, cloudId) && AllConnected(nodes, macToId, clouds)
        invariant MembersReached(nodes, macToId, inCloud, Gained(old(clouds), clouds, cloudId), cloudId)
      {
        VisitNeighbour(cloudId, n, neighbours, k, bound, old(clouds), old(inCloud));
        k := k + 1;
      }
    }

    /**
     * One round of the neighbour loop: adds the node that the `k`th MAC resolves to, if any, to cloud `cloudId`,
     * keeping what the loop has established since it started from clouds `cs0` and index `ic0`.
     */
    method VisitNeighbour(cloudId: NodeId, ghost from: NodeId, neighbours: seq<Mac>, k: nat, ghost bound: set<NodeId>,
                          ghost cs0: map<NodeId, Cloud>, ghost ic0: map<NodeId, Option<NodeId>>)
      requires Valid()
      requires cloudId in clouds && from in nodes && from in clouds[cloudId].members && neighbours == nodes[from].neighbours
      requires Unassigned(inCloud) < bound
      requires Grew(cloudId, cs0, ic0, clouds, inCloud)
      requires k < |neighbours| && AllReached(nodes, macToId, inCloud, neighbours, k, cloudId)
      requires OthersClosed(nodes, macToId, inCloud, clouds, cloudId) && AllConnected(nodes, macToId, clouds)
      requires MembersReached(nodes, macToId, inCloud, Gained(cs0, clouds, cloudId), cloudId)
      modifies this`inCloud, this`clouds, this`cloudOrder
      decreases bound, 0
      ensures Valid()
      ensures Unassigned(inCloud) <= old(Unassigned(inCloud))
      ensures Grew(cloudId, cs0, ic0, clouds, inCloud)
      ensures AllReached(nodes, macToId, inCloud, neighbours, k + 1, cloudId)
      ensures OthersClosed(nodes, macToId, inCloud, clouds, cloudId) && AllConnected(nodes, macToId, clouds)
      ensures MembersReached(nodes, macToId, inCloud, Gained(cs0, clouds, cloudId), cloudId)
    {
      var mac := neighbours[k];
      ghost var cs1, ic1 := clouds, inCloud;
      if mac in macToId {
        assert Adjacent(nodes, macToId, from, macToId[mac]) by {
          assert nodes[from].neighbours[k] == mac;
        }
        AddNeighbour2Cloud(cloudId, macToId[mac], from);
      } else {
        GrewReflexive(cloudId, clouds, inCloud);
        assert Gained(cs1, clouds, cloudId) == [];
      }
      GrowthStep(nodes, macToId, cloudId, cs0, ic0, cs1, ic1, clouds, inCloud, neighbours, k);
    }

    /** Every neighbour of `n` that resolves to an observed node is in cloud `c`. */
    ghost predicate NeighboursIn(n: NodeId, c: NodeId)
      reads this
    {
      n in nodes && AllReached(nodes, macToId, inCloud, nodes[n].neighbours, |nodes[n].neighbours|, c)
    }

    /** A fresh cloud keyed by seed `c`, appended to the cloud table. */
    method SeedCloud(c: NodeId)
      requires Valid() && c in nodes && inCloud[c].None?
      requires forall e | e in clouds :: clouds[e].members != []
      modifies this`clouds, this`cloudOrder
      ensures Valid()
      ensures clouds == old(clouds)[c := EmptyCloud()] && c !in old(clouds)
      ensures cloudOrder == old(cloudOrder) + [c]
    {
      SeedKeepsPartition(nodes, inCloud, clouds, c);
      clouds := clouds[c := EmptyCloud()];
      cloudOrder := cloudOrder + [c];
    }

    /** Drops the single-member cloud of seed `c` and resets the seed's `InCloud`. */
    method DiscardCloud(c: NodeId)
      requires Valid() && c in clouds && |clouds[c].members| == 1
      modifies this`inCloud, this`clouds, this`cloudOrder
      ensures Valid()
      ensures clouds == old(clouds) - {c}
      ensures inCloud == old(inCloud)[c := None]
      ensures cloudOrder == RemoveId(old(cloudOrder), c)
    {
      DiscardKeepsPartition(nodes, inCloud, clouds, c);
      RemoveIdKeepsOrder(cloudOrder, clouds, c);
      inCloud := inCloud[c := None];
      clouds := clouds - {c};
      cloudOrder := RemoveId(cloudOrder, c);
    }

    /** Seeds a cloud at `x` and grows it from `x` (lines 176-183 of the builder). */
    method GrowFromSeed(x: NodeId)
      requires Valid() && x in nodes && nodes[x].status != Unknown && inCloud[x].None?
      requires forall c | c in clouds :: clouds[c].members != []
      requires Closed(nodes, macToId, inCloud, clouds) && AllConnected(nodes, macToId, clouds)
      modifies this`inCloud, this`clouds, this`cloudOrder
      ensures Valid()
      ensures x !in old(clouds)
      ensures Grew(x, old(clouds)[x := EmptyCloud()], old(inCloud), clouds, inCloud)
      ensures inCloud[x] == Some(x) && x in clouds && x in clouds[x].members
      ensures NeighboursIn(x, x)
      ensures Closed(nodes, macToId, inCloud, clouds) && AllConnected(nodes, macToId, clouds)
    {
      SeedCloud(x);
      ghost var cs0 := clouds;
      assert OthersClosed(nodes, macToId, inCloud, clouds, x) && AllConnected(nodes, macToId, clouds) by {
        forall d | d in clouds && d != x ensures clouds[d] == old(clouds)[d] { }
      }
      AddNeighbour2Cloud(x, x, x);
      assert CloudOk(nodes, inCloud, x, clouds[x]);
      assert Gained(cs0, clouds, x) == clouds[x].members;
    }

    /** One seed step of the builder: seeds a cloud at `x`, grows it, and discards it again if `x` stayed alone. */
    method BuildCloudAt(x: NodeId)
      requires Valid() && x in nodes && nodes[x].status != Unknown && inCloud[x].None? && |nodes[x].neighbours| > 0
      requires AllSeeded(nodes, clouds) && Closed(nodes, macToId, inCloud, clouds) && AllConnected(nodes, macToId, clouds)
      modifies this`inCloud, this`clouds, this`cloudOrder
      ensures Valid()
      ensures AllSeeded(nodes, clouds) && Closed(nodes, macToId, inCloud, clouds) && AllConnected(nodes, macToId, clouds)
      ensures forall y | y in inCloud && inCloud[y].None? && y != x :: old(inCloud[y]).None?
      ensures inCloud[x].None? ==> Lonely(nodes, macToId, x)
    {
      ghost var cs0, ic0 := clouds, inCloud;
      GrowFromSeed(x);
      GrowKeepsSeeded(nodes, cs0, ic0, clouds, inCloud, x);
      if |clouds[x].members| < 2 {
        LonelySeed(x);
        DiscardKeepsClosed(nodes, macToId, inCloud, clouds, x);
        DiscardKeepsConnected(nodes, macToId, clouds, x);
        DiscardCloud(x);
      }
    }

    /**
     * Builds the cloud table: a cloud is seeded at every observed node that is in no cloud yet and has neighbours,
     * in table order; a seed that gathers no second member is discarded again.
     */
    method CreateMeshCloudList()
      requires Valid() && clouds == map[]
      modifies this`inCloud, this`clouds, this`cloudOrder
      ensures Valid()
      ensures AllSeeded(nodes, clouds)
      ensures Closed(nodes, macToId, inCloud, clouds) && AllConnected(nodes, macToId, clouds)
      ensures forall x | x in nodes && inCloud[x].None? && nodes[x].status != Unknown :: Lonely(nodes, macToId, x)
    {
      var i := 0;
      while i < |ids|
        invariant 0 <= i <= |ids|
        invariant Valid()
        invariant AllSeeded(nodes, clouds) && Closed(nodes, macToId, inCloud, clouds) && AllConnected(nodes, macToId, clouds)
        invariant LonelyUpTo(nodes, macToId, ids, inCloud, i)
      {
        var x := ids[i];
        ghost var ic0 := inCloud;
        if nodes[x].status != Unknown && inCloud[x].None? && |nodes[x].neighbours| > 0 {
          BuildCloudAt(x);
        }
        LonelyUpToStep(nodes, macToId, ids, ic0, inCloud, i);
        i := i + 1;
      }
      forall x | x in nodes && inCloud[x].None? && nodes[x].status != Unknown
        ensures Lonely(nodes, macToId, x)
      {
        var j :| 0 <= j < |ids| && ids[j] == x;
      }
    }

    /** A seed whose cloud holds only itself has no observed neighbour other than itself. */
    lemma LonelySeed(x: NodeId)
      requires Valid() && x in clouds && x in clouds[x].members && |clouds[x].members| < 2
      requires NeighboursIn(x, x)
      ensures Lonely(nodes, macToId, x)
    {
      assert clouds[x].members == [x];
      forall mac | mac in nodes[x].neighbours && mac in macToId
        ensures macToId[mac] in nodes && (nodes[macToId[mac]].status == Unknown || macToId[mac] == x)
      {
        var y := macToId[mac];
        var j :| 0 <= j < |nodes[x].neighbours| && nodes[x].neighbours[j] == mac;
        assert ReachedIn(nodes, macToId, inCloud, nodes[x].neighbours[j], x);
        if nodes[y].status != Unknown {
          assert inCloud[y] == Some(x);
          assert CloudOk(nodes, inCloud, x, clouds[x]);
          assert y in clouds[x].members;
        }
      }
    }
  
    /**
     * The scan of a cloud's members in order: collects the distinct uplink segments of online members, whether any
     * member is online, and the desired and fixed dicts, applying the manual override to the node table on the way.
     */
    method ScanMembers(members: seq<NodeId>) returns (uplinkSegs: seq<int>, isOnline: bool, desired: Groups<int>, fixed: Groups<Option<int>>)
      requires InTable(members, nodes)
      modifies this`nodes
      ensures Scan(nodes, uplinkSegs, isOnline, desired, fixed) == ScanCloud(old(nodes), online, members)
    {
      ghost var nodes0 := nodes;
      uplinkSegs, isOnline, desired, fixed := [], false, NoGroups(), NoGroups();
      var i := 0;
      while i < |members|
        invariant 0 <= i <= |members|
        invariant Scan(nodes, uplinkSegs, isOnline, desired, fixed) == ScanCloud(nodes0, online, members[..i])
      {
        var x := members[i];
        assert members[..i + 1][..i] == members[..i];
        var n := nodes[x];
        if x in online {
          isOnline := true;
          if n.status == Uplink && n.keyDir.Some? && n.keyDir.value !in uplinkSegs {
            uplinkSegs := uplinkSegs + [n.keyDir.value];
          }
        }
        if IsManual(n) && n.keyDir.Some? {
          n := n.(destSeg := n.keyDir);
          nodes := nodes[x := n];
        } else {
          assert nodes[x := n] == nodes;
        }
        if n.destSeg.Some? {
          desired := Insert(desired, n.destSeg.value, x);
        }
        if IsFixed(n) {
          fixed := Insert(fixed, n.segment, x);
        }
        i := i + 1;
      }
      assert members[..|members|] == members;
    }

    /** Schedules every member of cloud `c` whose key sits in another segment into `target`, unless `target` is 0. */
    method MarkNodesInCloudForMove(c: NodeId, target: int)
      requires c in clouds && InTable(clouds[c].members, nodes)
      modifies this`moves
      ensures moves == Marked(old(moves), nodes, clouds[c].members, target)
    {
      var members := clouds[c].members;
      var i := 0;
      while i < |members|
        invariant 0 <= i <= |members|
        invariant moves == Marked(old(moves), nodes, members[..i], target)
      {
        var x := members[i];
        MarkedStep(old(moves), nodes, members, target, i);
        if nodes[x].keyDir.Some? && nodes[x].keyDir.value != target {
          if target != 0 {
            moves := moves[x := target];
          }
        }
        i := i + 1;
      }
      assert members[..|members|] == members;
    }

    /**
     * The check of one cloud: scans its members, resolves its segment and acts on the outcome.
     * `ok` is false when the run breaks off at this cloud.
     */
    method CheckOneCloud(c: NodeId) returns (ok: bool)
      requires c in clouds && InTable(clouds[c].members, nodes)
      modifies this`nodes, this`clouds, this`moves, this`alerts, this`analyseOnly
      ensures Outcome(nodes, clouds, moves, alerts, analyseOnly, ok)
           == CloudCheck.CheckCloud(online, Outcome(old(nodes), old(clouds), old(moves), old(alerts), old(analyseOnly), true), c)
    {
      ghost var nodes0 := nodes;
      var members := clouds[c].members;
      var uplinkSegs, isOnline, desired, fixed := ScanMembers(members);
      ScanGroupsOk(nodes0, online, members);
      GroupsOkKeys(desired, nodes0, nodes);
      GroupsOkKeys(fixed, nodes0, nodes);
      var target, found;
      ok, target, found := GetCloudSegment(nodes, online, desired, fixed);
      ok := Conclude(c, Scan(nodes, uplinkSegs, isOnline, desired, fixed), Decision(ok, target, found));
    }

    /**
     * The actions on one cloud once its segment is resolved: the shortcut alerts and the block, the moves into the
     * resolved segment (or into the first uplink segment in place of the default 0), and the stored cloud segment.
     */
    method Conclude(c: NodeId, sc: Scan, d: Decision) returns (ok: bool)
      requires c in clouds && InTable(clouds[c].members, nodes)
      modifies this`clouds, this`moves, this`alerts, this`analyseOnly
      ensures Outcome(nodes, clouds, moves, alerts, analyseOnly, ok)
           == Apply(Outcome(nodes, old(clouds), old(moves), old(alerts), old(analyseOnly), true), c, Decide(sc, d))
    {
      alerts := alerts + d.alerts;
      ok := d.ok;
      if !ok {
        return;
      }
      var target := d.target;
      var cloudSegment := target;
      if |sc.uplinkSegs| > 1 || target.None? {
        alerts := alerts + [ShortcutDetected];
        if target.None? {
          alerts := alerts + [ShortcutUncorrectable];
          analyseOnly := true;
        } else {
          MarkNodesInCloudForMove(c, target.value);
          alerts := alerts + [ShortcutCorrected];
        }
      } else if |sc.uplinkSegs| == 0 && sc.isOnline {
      } else {
        if |sc.fixed.order| == 0 && target == Some(0) {
          if |sc.uplinkSegs| == 0 {
            ok := false;
            return;
          }
          cloudSegment := Some(sc.uplinkSegs[0]);
        }
        MarkNodesInCloudForMove(c, cloudSegment.value);
      }
      clouds := clouds[c := clouds[c].(cloudSegment := cloudSegment)];
    }

    /** The clouds of the order are in the table, and their members in the node table. */
    lemma CloudsCovered()
      requires Valid()
      ensures forall c | c in cloudOrder :: c in clouds && InTable(clouds[c].members, nodes)
    {
      forall c | c in cloudOrder ensures c in clouds && InTable(clouds[c].members, nodes) {
        assert CloudOk(nodes, inCloud, c, clouds[c]);
      }
    }

    /**
     * The cloud check, cloud by cloud in table order. It stops with `ok` false at the first cloud that breaks the
     * run off; it changes nothing of the table but `DestSeg` of nodes and `CloudSegment` of clouds.
     */
    method CheckMeshClouds() returns (ok: bool)
      requires Valid()
      modifies this`nodes, this`clouds, this`moves, this`alerts, this`analyseOnly
      ensures Valid()
      ensures Outcome(nodes, clouds, moves, alerts, analyseOnly, ok)
           == CheckClouds(online, Outcome(old(nodes), old(clouds), old(moves), old(alerts), old(analyseOnly), true), cloudOrder)
    {
      ghost var o0 := Outcome(nodes, clouds, moves, alerts, analyseOnly, true);
      CloudsCovered();
      ok := CheckCloudsInOrder();
      ShapeKeepsPartition(o0, Outcome(nodes, clouds, moves, alerts, analyseOnly, ok), inCloud);
      SameKeysTableOk(ids, o0.nodes, nodes, macToId);
    }

    /** The loop of the cloud check over `cloudOrder`. */
    method CheckCloudsInOrder() returns (ok: bool)
      requires forall c | c in cloudOrder :: c in clouds && InTable(clouds[c].members, nodes)
      modifies this`nodes, this`clouds, this`moves, this`alerts, this`analyseOnly
      ensures Outcome(nodes, clouds, moves, alerts, analyseOnly, ok)
           == CheckClouds(online, Outcome(old(nodes), old(clouds), old(moves), old(alerts), old(analyseOnly), true), cloudOrder)
    {
      ghost var o0 := Outcome(nodes, clouds, moves, alerts, analyseOnly, true);
      ok := true;
      var i := 0;
      while i < |cloudOrder| && ok
        invariant 0 <= i <= |cloudOrder|
        invariant Outcome(nodes, clouds, moves, alerts, analyseOnly, ok) == CheckClouds(online, o0, cloudOrder[..i])
      {
        CheckCloudsCovers(online, o0, cloudOrder, i);
        CheckCloudsSnoc(online, o0, cloudOrder, i);
        ok := CheckOneCloud(cloudOrder[i]);
        i := i + 1;
      }
      if ok {
        assert cloudOrder[..i] == cloudOrder;
      } else {
        CheckCloudsStops(online, o0, cloudOrder, i);
      }
    }

    /** Schedules the move `SingleMove` asks for of every node of the table, in table order. */
    method CheckSingleNodes()
      requires Valid()
      modifies this`moves
      ensures moves == SingleMoves(old(moves), nodes, inCloud, ids)
    {
      var i := 0;
      while i < |ids|
        invariant 0 <= i <= |ids|
        invariant moves == SingleMoves(old(moves), nodes, inCloud, ids[..i])
      {
        var x := ids[i];
        assert ids[..i + 1][..i] == ids[..i];
        var n := nodes[x];
        if inCloud[x].None? && n.status != Unknown && n.keyDir.Some? && n.gluonType >= NodeTypeSegmentList && n.keyDir.value <= 64 {
          if IsAutoOrFixSpace(n) {
            var target := n.destSeg;
            if target.Some? {
              if Eligible(n, target.value) {
                if n.keyDir.value != target.value {
                  moves := moves[x := target.value];
                }
              }
            }
          }
        } else if n.status == Unknown && n.destSeg == Some(KillSegment) && n.keyDir.Some? && n.keyFile != "" {
          moves := moves[x := KillSegment];
        }
        i := i + 1;
      }
      assert ids[..|ids|] == ids;
    }

    /** The move map, or nothing when no move is scheduled. */
    function GetMoveDict(): (r: Option<map<NodeId, int>>)
      reads this
      ensures r.None? <==> moves == map[]
      ensures r.Some? ==> r.value == moves
    {
      if |moves| > 0 then Some(moves) else None
    }

    /**
     * The checks that follow the building of the clouds: the cloud check, then, unless it broke off, the check of
     * the nodes in no cloud, whose moves thus take precedence.
     */
    method CheckBuiltClouds(ghost built: Outcome) returns (ok: bool)
      requires Valid()
      requires built == Outcome(nodes, clouds, moves, alerts, analyseOnly, true)
      requires forall c | c in cloudOrder :: c in clouds && InTable(clouds[c].members, nodes)
      modifies this`nodes, this`clouds, this`moves, this`alerts, this`analyseOnly
      ensures Valid()
      ensures var r := CheckClouds(online, built, cloudOrder);
        && Outcome(nodes, clouds, r.moves, alerts, analyseOnly, ok) == r
        && (ok ==> moves == SingleMoves(r.moves, nodes, inCloud, ids))
        && (!ok ==> moves == r.moves)
        && MovesAway(built.moves, r.moves, built.nodes)
        && AlertsAppended(built, r)
    {
      CheckCloudsMoves(online, built, cloudOrder);
      CheckCloudsAlerts(online, built, cloudOrder);
      ok := CheckMeshClouds();
      if ok {
        CheckSingleNodes();
      }
    }

    /**
     * The segment check: builds the clouds, then runs `CheckBuiltClouds`. `built` is the state right after the
     * clouds are built; `ok` is false when the cloud check broke off, and the single nodes are then not checked.
     */
    method CheckSegments() returns (ok: bool, ghost built: Outcome)
      requires Valid() && clouds == map[]
      modifies this`nodes, this`inCloud, this`clouds, this`cloudOrder, this`moves, this`alerts, this`analyseOnly
      ensures Valid()
      ensures built.nodes == old(nodes) && built.moves == old(moves) && built.alerts == old(alerts)
      ensures built.analyseOnly == old(analyseOnly) && built.ok
      ensures built.clouds.Keys == clouds.Keys && forall c | c in built.clouds :: |built.clouds[c].members| >= 2
      ensures forall c | c in cloudOrder :: c in built.clouds && InTable(built.clouds[c].members, built.nodes)
      ensures Closed(built.nodes, macToId, inCloud, built.clouds) && AllConnected(built.nodes, macToId, built.clouds)
      ensures var r := CheckClouds(online, built, cloudOrder);
        && Outcome(nodes, clouds, r.moves, alerts, analyseOnly, ok) == r
        && (ok ==> moves == SingleMoves(r.moves, nodes, inCloud, ids))
        && (!ok ==> moves == r.moves)
        && MovesAway(built.moves, r.moves, built.nodes)
        && AlertsAppended(built, r)
      ensures forall c | c in clouds :: |clouds[c].members| >= 2
    {
      CreateMeshCloudList();
      built := Outcome(nodes, clouds, moves, alerts, analyseOnly, true);
      forall c | c in clouds ensures |clouds[c].members| >= 2 {
        assert Seeded(nodes, clouds, c);
      }
      CloudsCovered();
      ok := CheckBuiltClouds(built);
      assert SameShape(built, CheckClouds(online, built, cloudOrder));
    }
  }

  /** An outcome of the same shape as one whose tables agree with `InCloud` agrees with it as well. */
  lemma ShapeKeepsPartition(o: Outcome, r: Outcome, inCloud: map<NodeId, Option<NodeId>>)
    requires Partition(o.nodes, inCloud, o.clouds) && SameShape(o, r)
    ensures Partition(r.nodes, inCloud, r.clouds)
  {
    DestSegKeepsPartition(o.nodes, r.nodes, inCloud, o.clouds, r.clouds);
  }
}
