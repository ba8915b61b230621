/** What a mesh cloud table must satisfy, and the cloud aggregates (client sum, lowest uplink firmware) as functions of the member list. */
module CloudSpec {
  import opened Common
  import opened MeshTypes

  /** Sum of the members' client counts, accumulated in member order as the cloud builder does. */
  function SumClients(nodes: map<NodeId, Node>, s: seq<NodeId>): int
    requires forall m | m in s :: m in nodes
  {
    if s == [] then 0 else SumClients(nodes, s[..|s| - 1]) + nodes[s[|s| - 1]].clients
  }

  /** The cloud's `GluonType`: starts at 99 and is lowered by every member in uplink status whose firmware is older. */
  function MinGluon(nodes: map<NodeId, Node>, s: seq<NodeId>): int
    requires forall m | m in s :: m in nodes
  {
    if s == [] then CloudGluonTypeStart
    else
      var g := MinGluon(nodes, s[..|s| - 1]);
      var x := nodes[s[|s| - 1]];
      if x.gluonType < g && x.status == Uplink then x.gluonType else g
  }

  /** The smaller of two cloud firmware values, as a merge keeps it. */
  function MergeGluon(mine: int, absorbed: int): int {
    if absorbed < mine then absorbed else mine
  }

  lemma {:induction false} SumClientsConcat(nodes: map<NodeId, Node>, a: seq<NodeId>, b: seq<NodeId>)
    requires forall m | m in a :: m in nodes
    requires forall m | m in b :: m in nodes
    ensures forall m | m in a + b :: m in nodes
    ensures SumClients(nodes, a + b) == SumClients(nodes, a) + SumClients(nodes, b)
    decreases |b|
  {
    if b == [] {
      assert a + b == a;
    } else {
      var b' := b[..|b| - 1];
      assert (a + b)[..|a + b| - 1] == a + b';
      assert (a + b)[|a + b| - 1] == b[|b| - 1];
      SumClientsConcat(nodes, a, b');
    }
  }

  lemma {:induction false} MinGluonConcat(nodes: map<NodeId, Node>, a: seq<NodeId>, b: seq<NodeId>)
    requires forall m | m in a :: m in nodes
    requires forall m | m in b :: m in nodes
    ensures forall m | m in a + b :: m in nodes
    ensures MinGluon(nodes, a + b) == MergeGluon(MinGluon(nodes, a), MinGluon(nodes, b))
    decreases |b|
  {
    if b == [] {
      assert a + b == a;
      MinGluonAtMostStart(nodes, a);
    } else {
      var b' := b[..|b| - 1];
      assert (a + b)[..|a + b| - 1] == a + b';
      assert (a + b)[|a + b| - 1] == b[|b| - 1];
      MinGluonConcat(nodes, a, b');
    }
  }

  lemma {:induction false} MinGluonAtMostStart(nodes: map<NodeId, Node>, s: seq<NodeId>)
    requires forall m | m in s :: m in nodes
    ensures MinGluon(nodes, s) <= CloudGluonTypeStart
  {
    if s != [] {
      MinGluonAtMostStart(nodes, s[..|s| - 1]);
    }
  }

  /** The cloud's `GluonType` is the minimum firmware over its uplink members, or 99 when none is lower. */
  lemma {:induction false} MinGluonIsMinimum(nodes: map<NodeId, Node>, s: seq<NodeId>)
    requires forall m | m in s :: m in nodes
    ensures MinGluon(nodes, s) <= CloudGluonTypeStart
    ensures forall m | m in s && nodes[m].status == Uplink :: MinGluon(nodes, s) <= nodes[m].gluonType
    ensures MinGluon(nodes, s) == CloudGluonTypeStart
         || exists m | m in s :: nodes[m].status == Uplink && nodes[m].gluonType == MinGluon(nodes, s)
  {
    if s != [] {
      var s' := s[..|s| - 1];
      MinGluonIsMinimum(nodes, s');
      assert forall m | m in s :: m in s' || m == s[|s| - 1] by {
        assert s == s' + [s[|s| - 1]];
      }
    }
  }

  /** Ids of the nodes that are in no cloud yet; the cloud builder's recursion shrinks this set. */
  function Unassigned(inCloud: map<NodeId, Option<NodeId>>): set<NodeId> {
    set n | n in inCloud && inCloud[n].None?
  }

  /** One cloud of the table is well formed: distinct online members that point back at it, seed first, aggregates up to date. */
  ghost predicate CloudOk(nodes: map<NodeId, Node>, inCloud: map<NodeId, Option<NodeId>>, c: NodeId, cl: Cloud) {
    && Distinct(cl.members)
    && (forall m | m in cl.members :: m in nodes && m in inCloud && inCloud[m] == Some(c) && nodes[m].status != Unknown)
    && cl.numClients == SumClients(nodes, cl.members)
    && cl.gluonType == MinGluon(nodes, cl.members)
    && (cl.members != [] ==> cl.members[0] == c)
  }

  /** The cloud table and the `InCloud` index agree: `inCloud[n] == Some(c)` exactly when `n` is a member of cloud `c`. */
  ghost predicate Partition(nodes: map<NodeId, Node>, inCloud: map<NodeId, Option<NodeId>>, clouds: map<NodeId, Cloud>) {
    && inCloud.Keys == nodes.Keys
    && (forall n | n in inCloud && inCloud[n].Some? :: inCloud[n].value in clouds && n in clouds[inCloud[n].value].members)
    && (forall c | c in clouds :: CloudOk(nodes, inCloud, c, clouds[c]))
  }

  /** The table's ids are distinct and in iteration order, and every neighbour MAC resolves to a node of the table. */
  ghost predicate TableOk(ids: seq<NodeId>, nodes: map<NodeId, Node>, macToId: map<Mac, NodeId>) {
    && Distinct(ids)
    && (forall n :: n in ids <==> n in nodes)
    && (forall m | m in macToId :: macToId[m] in nodes)
  }

  /** The cloud iteration order lists every cloud of the table once. */
  ghost predicate OrderOk(cloudOrder: seq<NodeId>, clouds: map<NodeId, Cloud>) {
    Distinct(cloudOrder) && forall c :: c in cloudOrder <==> c in clouds
  }

  /** The whole arena: the node table, the cloud table, `InCloud` and the cloud order fit together. */
  ghost predicate Arena(ids: seq<NodeId>, nodes: map<NodeId, Node>, macToId: map<Mac, NodeId>,
                        inCloud: map<NodeId, Option<NodeId>>, clouds: map<NodeId, Cloud>, cloudOrder: seq<NodeId>) {
    TableOk(ids, nodes, macToId) && Partition(nodes, inCloud, clouds) && OrderOk(cloudOrder, clouds)
  }

  /** Deleting a cloud from the table and from the order keeps the two in step. */
  lemma RemoveIdKeepsOrder(cloudOrder: seq<NodeId>, clouds: map<NodeId, Cloud>, c: NodeId)
    requires OrderOk(cloudOrder, clouds)
    ensures OrderOk(RemoveId(cloudOrder, c), clouds - {c})
  {
  }

  /** Only the key set of the table matters to its shape. */
  lemma SameKeysTableOk(ids: seq<NodeId>, nodes0: map<NodeId, Node>, nodes1: map<NodeId, Node>, macToId: map<Mac, NodeId>)
    requires TableOk(ids, nodes0, macToId) && nodes1.Keys == nodes0.Keys
    ensures TableOk(ids, nodes1, macToId)
  {
  }

  /** An empty cloud table agrees with an index in which no node is in a cloud. */
  lemma EmptyPartition(nodes: map<NodeId, Node>, inCloud: map<NodeId, Option<NodeId>>)
    requires inCloud.Keys == nodes.Keys && Unassigned(inCloud) == inCloud.Keys
    ensures Partition(nodes, inCloud, map[])
  {
    forall n | n in inCloud
      ensures inCloud[n].None?
    {
      assert n in Unassigned(inCloud);
    }
  }

  /** No node is a member of two clouds. */
  lemma MembersDisjoint(nodes: map<NodeId, Node>, inCloud: map<NodeId, Option<NodeId>>, clouds: map<NodeId, Cloud>, c: NodeId, d: NodeId, n: NodeId)
    requires Partition(nodes, inCloud, clouds)
    requires c in clouds && d in clouds && n in clouds[c].members && n in clouds[d].members
    ensures c == d
  {
    assert CloudOk(nodes, inCloud, c, clouds[c]) && CloudOk(nodes, inCloud, d, clouds[d]);
  }

  /** A fresh, empty cloud for a seed (line 176-181 of the builder). */
  function EmptyCloud(): Cloud {
    Cloud(0, CloudGluonTypeStart, [], None)
  }

  /** The cloud after node `n` joined it: clients added, member appended, firmware lowered by an older uplink member. */
  function AddMember(nodes: map<NodeId, Node>, cl: Cloud, n: NodeId): (r: Cloud)
    requires n in nodes
  {
    var x := nodes[n];
    Cloud(cl.numClients + x.clients,
          if x.gluonType < cl.gluonType && x.status == Uplink then x.gluonType else cl.gluonType,
          cl.members + [n],
          cl.cloudSegment)
  }

  /** Cloud `mine` after absorbing cloud `absorbed`. */
  function MergeCloud(mine: Cloud, absorbed: Cloud): Cloud {
    Cloud(mine.numClients + absorbed.numClients,
          MergeGluon(mine.gluonType, absorbed.gluonType),
          mine.members + absorbed.members,
          mine.cloudSegment)
  }

  /** Every node of cloud `from` re-pointed to cloud `to`. */
  function Repointed(inCloud: map<NodeId, Option<NodeId>>, from: NodeId, to: NodeId): (r: map<NodeId, Option<NodeId>>)
    ensures r.Keys == inCloud.Keys
  {
    map x | x in inCloud :: if inCloud[x] == Some(from) then Some(to) else inCloud[x]
  }

  /** Seeding a new cloud at a node that is in no cloud keeps the table consistent. */
  lemma SeedKeepsPartition(nodes: map<NodeId, Node>, inCloud: map<NodeId, Option<NodeId>>, clouds: map<NodeId, Cloud>, c: NodeId)
    requires Partition(nodes, inCloud, clouds)
    requires forall e | e in clouds :: clouds[e].members != []
    requires c in inCloud && inCloud[c].None?
    ensures c !in clouds
    ensures Partition(nodes, inCloud, clouds[c := EmptyCloud()])
  {
    forall e | e in clouds
      ensures e != c
    {
      assert CloudOk(nodes, inCloud, e, clouds[e]);
      assert clouds[e].members[0] in clouds[e].members;
    }
  }

  /** Adding an unassigned, observed node to a cloud keeps the table consistent and removes the node from the unassigned set. */
  /** Adding a node to a cloud keeps the whole arena well formed. */
  lemma AddKeepsArena(ids: seq<NodeId>, nodes: map<NodeId, Node>, macToId: map<Mac, NodeId>,
                      inCloud: map<NodeId, Option<NodeId>>, clouds: map<NodeId, Cloud>, cloudOrder: seq<NodeId>,
                      c: NodeId, n: NodeId)
    requires Arena(ids, nodes, macToId, inCloud, clouds, cloudOrder)
    requires c in clouds && n in nodes && inCloud[n].None? && nodes[n].status != Unknown
    requires clouds[c].members == [] ==> n == c
    ensures Arena(ids, nodes, macToId, inCloud[n := Some(c)], clouds[c := AddMember(nodes, clouds[c], n)], cloudOrder)
  {
    AddKeepsPartition(nodes, inCloud, clouds, c, n);
    assert clouds[c := AddMember(nodes, clouds[c], n)].Keys == clouds.Keys;
  }

  /** Pointing an unassigned node at a cloud takes exactly that node out of the unassigned ones. */
  lemma AssignShrinks(inCloud: map<NodeId, Option<NodeId>>, n: NodeId, c: NodeId)
    requires n in inCloud && inCloud[n].None?
    ensures Unassigned(inCloud[n := Some(c)]) == Unassigned(inCloud) - {n} && n in Unassigned(inCloud)
  {
  }

  lemma AddKeepsPartition(nodes: map<NodeId, Node>, inCloud: map<NodeId, Option<NodeId>>, clouds: map<NodeId, Cloud>, c: NodeId, n: NodeId)
    requires Partition(nodes, inCloud, clouds)
    requires c in clouds && n in nodes && inCloud[n].None? && nodes[n].status != Unknown
    requires clouds[c].members == [] ==> n == c
    ensures Partition(nodes, inCloud[n := Some(c)], clouds[c := AddMember(nodes, clouds[c], n)])
  {
    AddKeepsClouds(nodes, inCloud, clouds, c, n);
    AddKeepsPointers(nodes, inCloud, clouds, c, n);
  }

  /** After a join every cloud of the table is still well formed. */
  lemma AddKeepsClouds(nodes: map<NodeId, Node>, inCloud: map<NodeId, Option<NodeId>>, clouds: map<NodeId, Cloud>, c: NodeId, n: NodeId)
    requires forall d | d in clouds :: CloudOk(nodes, inCloud, d, clouds[d])
    requires c in clouds && n in nodes && n in inCloud && inCloud[n].None? && nodes[n].status != Unknown
    requires clouds[c].members == [] ==> n == c
    ensures var cs := clouds[c := AddMember(nodes, clouds[c], n)];
      forall d | d in cs :: CloudOk(nodes, inCloud[n := Some(c)], d, cs[d])
  {
    var ic := inCloud[n := Some(c)];
    var cs := clouds[c := AddMember(nodes, clouds[c], n)];
    JoinedCloudOk(nodes, inCloud, c, clouds[c], n);
    forall d | d in cs
      ensures CloudOk(nodes, ic, d, cs[d])
    {
      if d != c {
        OutsiderCloudOk(nodes, inCloud, d, clouds[d], c, n);
      }
    }
  }

  /** After a join every assigned node still points at a cloud that lists it. */
  lemma AddKeepsPointers(nodes: map<NodeId, Node>, inCloud: map<NodeId, Option<NodeId>>, clouds: map<NodeId, Cloud>, c: NodeId, n: NodeId)
    requires forall x | x in inCloud && inCloud[x].Some? :: inCloud[x].value in clouds && x in clouds[inCloud[x].value].members
    requires c in clouds && n in nodes
    ensures var ic, cs := inCloud[n := Some(c)], clouds[c := AddMember(nodes, clouds[c], n)];
      forall x | x in ic && ic[x].Some? :: ic[x].value in cs && x in cs[ic[x].value].members
  {
    var ic := inCloud[n := Some(c)];
    var cs := clouds[c := AddMember(nodes, clouds[c], n)];
    forall x | x in ic && ic[x].Some?
      ensures ic[x].value in cs && x in cs[ic[x].value].members
    {
      if x != n {
        assert inCloud[x] == ic[x];
      }
    }
  }

  /** The cloud a node joins stays well formed under the updated index. */
  lemma JoinedCloudOk(nodes: map<NodeId, Node>, inCloud: map<NodeId, Option<NodeId>>, c: NodeId, cl: Cloud, n: NodeId)
    requires CloudOk(nodes, inCloud, c, cl)
    requires n in nodes && n in inCloud && inCloud[n].None? && nodes[n].status != Unknown
    requires cl.members == [] ==> n == c
    ensures CloudOk(nodes, inCloud[n := Some(c)], c, AddMember(nodes, cl, n))
  {
    var cl' := AddMember(nodes, cl, n);
    assert n !in cl.members;
    assert cl'.members[..|cl'.members| - 1] == cl.members;
  }

  /** A cloud the joining node is not in stays well formed under the updated index. */
  lemma OutsiderCloudOk(nodes: map<NodeId, Node>, inCloud: map<NodeId, Option<NodeId>>, d: NodeId, cl: Cloud, c: NodeId, n: NodeId)
    requires CloudOk(nodes, inCloud, d, cl)
    requires n in inCloud && inCloud[n].None?
    ensures CloudOk(nodes, inCloud[n := Some(c)], d, cl)
  {
    assert n !in cl.members;
  }

  /** The concatenated member list of two clouds is well formed under the re-pointed index. */
  lemma MergedCloudOk(nodes: map<NodeId, Node>, inCloud: map<NodeId, Option<NodeId>>, c: NodeId, d: NodeId, a: Cloud, b: Cloud)
    requires CloudOk(nodes, inCloud, c, a) && CloudOk(nodes, inCloud, d, b)
    requires c != d && a.members != []
    ensures CloudOk(nodes, Repointed(inCloud, d, c), c, MergeCloud(a, b))
  {
    var ic := Repointed(inCloud, d, c);
    var m := MergeCloud(a, b);
    SumClientsConcat(nodes, a.members, b.members);
    MinGluonConcat(nodes, a.members, b.members);
    assert Distinct(m.members) by {
      forall i, j | 0 <= i < j < |m.members| ensures m.members[i] != m.members[j] {
        if j >= |a.members| && i < |a.members| {
          assert m.members[i] in a.members && m.members[j] in b.members;
        } else if i >= |a.members| {
          assert m.members[i] == b.members[i - |a.members|];
          assert m.members[j] == b.members[j - |a.members|];
        }
      }
    }
    forall x | x in m.members
      ensures x in nodes && x in ic && ic[x] == Some(c) && nodes[x].status != Unknown
    {
      assert x in a.members || x in b.members;
    }
  }

  /** A cloud other than the two being merged stays well formed. */
  lemma BystanderCloudOk(nodes: map<NodeId, Node>, inCloud: map<NodeId, Option<NodeId>>, c: NodeId, d: NodeId, e: NodeId, cl: Cloud)
    requires CloudOk(nodes, inCloud, e, cl) && e != d
    ensures CloudOk(nodes, Repointed(inCloud, d, c), e, cl)
  {
    var ic := Repointed(inCloud, d, c);
    forall x | x in cl.members ensures ic[x] == Some(e) {
      assert inCloud[x] == Some(e);
    }
  }

  /** Merging cloud `d` into cloud `c` (re-pointing `d`'s members, deleting `d`) keeps the table consistent and assigns no new node. */
  lemma MergeKeepsPartition(nodes: map<NodeId, Node>, inCloud: map<NodeId, Option<NodeId>>, clouds: map<NodeId, Cloud>, c: NodeId, d: NodeId)
    requires Partition(nodes, inCloud, clouds)
    requires c in clouds && d in clouds && c != d && clouds[c].members != []
    ensures Partition(nodes, Repointed(inCloud, d, c), clouds[c := MergeCloud(clouds[c], clouds[d])] - {d})
    ensures Unassigned(Repointed(inCloud, d, c)) == Unassigned(inCloud)
  {
    var ic := Repointed(inCloud, d, c);
    var cs := clouds[c := MergeCloud(clouds[c], clouds[d])] - {d};
    MergedCloudOk(nodes, inCloud, c, d, clouds[c], clouds[d]);
    forall e | e in cs
      ensures CloudOk(nodes, ic, e, cs[e])
    {
      if e != c {
        BystanderCloudOk(nodes, inCloud, c, d, e, clouds[e]);
      }
    }
    forall x | x in ic && ic[x].Some?
      ensures ic[x].value in cs && x in cs[ic[x].value].members
    {
      assert inCloud[x].Some?;
    }
    RepointedUnassigned(inCloud, d, c);
  }

  /** Re-pointing moves nodes between clouds and assigns none. */
  lemma RepointedUnassigned(inCloud: map<NodeId, Option<NodeId>>, from: NodeId, to: NodeId)
    ensures Unassigned(Repointed(inCloud, from, to)) == Unassigned(inCloud)
  {
  }

  /** Discarding a single-member cloud and resetting its seed keeps the table consistent. */
  lemma DiscardKeepsPartition(nodes: map<NodeId, Node>, inCloud: map<NodeId, Option<NodeId>>, clouds: map<NodeId, Cloud>, c: NodeId)
    requires Partition(nodes, inCloud, clouds)
    requires c in clouds && |clouds[c].members| == 1
    ensures Partition(nodes, inCloud[c := None], clouds - {c})
  {
    var cl := clouds[c];
    assert CloudOk(nodes, inCloud, c, cl);
    assert cl.members == [c];
    var ic := inCloud[c := None];
    var cs := clouds - {c};
    assert inCloud[c] == Some(c);
    forall x | x in ic && ic[x].Some?
      ensures ic[x].value in cs && x in cs[ic[x].value].members
    {
      assert inCloud[x].Some? && inCloud[x].value in clouds;
      assert x != c && x !in cl.members;
      assert inCloud[x].value != c;
    }
    forall e | e in cs
      ensures CloudOk(nodes, ic, e, cs[e])
    {
      assert CloudOk(nodes, inCloud, e, clouds[e]);
      forall x | x in clouds[e].members ensures ic[x] == Some(e) {
        assert inCloud[x] == Some(e);
      }
    }
  }

  /** Between two states of one recursive visit: clouds other than `c` were only deleted, cloud `c` grew at its end, nodes only moved into `c`. */
  ghost predicate Grew(c: NodeId, cs0: map<NodeId, Cloud>, ic0: map<NodeId, Option<NodeId>>, cs1: map<NodeId, Cloud>, ic1: map<NodeId, Option<NodeId>>) {
    && c in cs0 && c in cs1
    && cs1.Keys <= cs0.Keys
    && (forall d | d in cs1 && d != c :: cs1[d] == cs0[d])
    && |cs0[c].members| <= |cs1[c].members|
    && cs1[c].members[..|cs0[c].members|] == cs0[c].members
    && cs1[c].cloudSegment == cs0[c].cloudSegment
    && ic1.Keys == ic0.Keys
    && (forall x | x in ic0 :: ic1[x] == ic0[x] || ic1[x] == Some(c))
  }

  lemma GrewReflexive(c: NodeId, cs: map<NodeId, Cloud>, ic: map<NodeId, Option<NodeId>>)
    requires c in cs
    ensures Grew(c, cs, ic, cs, ic)
  {
  }

  lemma GrewTransitive(c: NodeId, cs0: map<NodeId, Cloud>, ic0: map<NodeId, Option<NodeId>>, cs1: map<NodeId, Cloud>, ic1: map<NodeId, Option<NodeId>>, cs2: map<NodeId, Cloud>, ic2: map<NodeId, Option<NodeId>>)
    requires Grew(c, cs0, ic0, cs1, ic1) && Grew(c, cs1, ic1, cs2, ic2)
    ensures Grew(c, cs0, ic0, cs2, ic2)
  {
    var m0, m1, m2 := cs0[c].members, cs1[c].members, cs2[c].members;
    assert m2[..|m0|] == m1[..|m1|][..|m0|];
  }

  lemma JoinGrows(nodes: map<NodeId, Node>, cs: map<NodeId, Cloud>, ic: map<NodeId, Option<NodeId>>, c: NodeId, n: NodeId)
    requires c in cs && n in nodes && n in ic && ic[n].None?
    ensures Grew(c, cs, ic, cs[c := AddMember(nodes, cs[c], n)], ic[n := Some(c)])
  {
    var m := cs[c].members;
    assert (m + [n])[..|m|] == m;
  }

  lemma MergeGrows(cs: map<NodeId, Cloud>, ic: map<NodeId, Option<NodeId>>, c: NodeId, d: NodeId)
    requires c in cs && d in cs && c != d
    ensures Grew(c, cs, ic, cs[c := MergeCloud(cs[c], cs[d])] - {d}, Repointed(ic, d, c))
  {
    var m := cs[c].members;
    assert (m + cs[d].members)[..|m|] == m;
  }

  /** The neighbour MAC `mac`, if it resolves to an observed node, resolves to a node of cloud `c`. */
  ghost predicate ReachedIn(nodes: map<NodeId, Node>, macToId: map<Mac, NodeId>, inCloud: map<NodeId, Option<NodeId>>, mac: Mac, c: NodeId) {
    (mac in macToId && macToId[mac] in nodes && nodes[macToId[mac]].status != Unknown)
    ==> macToId[mac] in inCloud && inCloud[macToId[mac]] == Some(c)
  }

  /** The first `k` neighbour MACs all satisfy `ReachedIn`. */
  ghost predicate AllReached(nodes: map<NodeId, Node>, macToId: map<Mac, NodeId>, inCloud: map<NodeId, Option<NodeId>>, macs: seq<Mac>, k: nat, c: NodeId)
    requires k <= |macs|
  {
    forall j | 0 <= j < k :: ReachedIn(nodes, macToId, inCloud, macs[j], c)
  }

  lemma GrewKeepsReached(nodes: map<NodeId, Node>, macToId: map<Mac, NodeId>, c: NodeId,
                         cs0: map<NodeId, Cloud>, ic0: map<NodeId, Option<NodeId>>,
                         cs1: map<NodeId, Cloud>, ic1: map<NodeId, Option<NodeId>>, macs: seq<Mac>, k: nat)
    requires Grew(c, cs0, ic0, cs1, ic1)
    requires k <= |macs| && AllReached(nodes, macToId, ic0, macs, k, c)
    ensures AllReached(nodes, macToId, ic1, macs, k, c)
  {
    forall j | 0 <= j < k
      ensures ReachedIn(nodes, macToId, ic1, macs[j], c)
    {
      assert ReachedIn(nodes, macToId, ic0, macs[j], c);
    }
  }

  lemma AllReachedStep(nodes: map<NodeId, Node>, macToId: map<Mac, NodeId>, inCloud: map<NodeId, Option<NodeId>>, macs: seq<Mac>, k: nat, c: NodeId)
    requires k < |macs| && AllReached(nodes, macToId, inCloud, macs, k, c) && ReachedIn(nodes, macToId, inCloud, macs[k], c)
    ensures AllReached(nodes, macToId, inCloud, macs, k + 1, c)
  {
  }

  /** Every neighbour of every node of `members` that resolves to an observed node is in cloud `c`. */
  ghost predicate MembersReached(nodes: map<NodeId, Node>, macToId: map<Mac, NodeId>, inCloud: map<NodeId, Option<NodeId>>,
                                 members: seq<NodeId>, c: NodeId) {
    forall m | m in members :: m in nodes && AllReached(nodes, macToId, inCloud, nodes[m].neighbours, |nodes[m].neighbours|, c)
  }

  /** Every cloud of the table is closed under the neighbour relation: it holds every observed neighbour of its members. */
  ghost predicate Closed(nodes: map<NodeId, Node>, macToId: map<Mac, NodeId>, inCloud: map<NodeId, Option<NodeId>>, clouds: map<NodeId, Cloud>) {
    forall d | d in clouds :: MembersReached(nodes, macToId, inCloud, clouds[d].members, d)
  }

  /** Every cloud of the table other than the one being grown is closed. */
  ghost predicate OthersClosed(nodes: map<NodeId, Node>, macToId: map<Mac, NodeId>, inCloud: map<NodeId, Option<NodeId>>,
                               clouds: map<NodeId, Cloud>, c: NodeId) {
    forall d | d in clouds && d != c :: MembersReached(nodes, macToId, inCloud, clouds[d].members, d)
  }

  /** The members a grown cloud gained: what follows its old member list. */
  function Gained(cs0: map<NodeId, Cloud>, cs1: map<NodeId, Cloud>, c: NodeId): seq<NodeId>
    requires c in cs0 && c in cs1 && |cs0[c].members| <= |cs1[c].members|
  {
    cs1[c].members[|cs0[c].members|..]
  }

  /** A neighbour reached in the cloud being grown stays reached while it grows. */
  lemma GrewKeepsMembersReached(nodes: map<NodeId, Node>, macToId: map<Mac, NodeId>, c: NodeId,
                                cs0: map<NodeId, Cloud>, ic0: map<NodeId, Option<NodeId>>,
                                cs1: map<NodeId, Cloud>, ic1: map<NodeId, Option<NodeId>>, members: seq<NodeId>)
    requires Grew(c, cs0, ic0, cs1, ic1) && MembersReached(nodes, macToId, ic0, members, c)
    ensures MembersReached(nodes, macToId, ic1, members, c)
  {
    forall m | m in members
      ensures m in nodes && AllReached(nodes, macToId, ic1, nodes[m].neighbours, |nodes[m].neighbours|, c)
    {
      GrewKeepsReached(nodes, macToId, c, cs0, ic0, cs1, ic1, nodes[m].neighbours, |nodes[m].neighbours|);
    }
  }

  /** Growing cloud `c` leaves every other cloud that is still in the table closed. */
  lemma GrewKeepsOthersClosed(nodes: map<NodeId, Node>, macToId: map<Mac, NodeId>, c: NodeId,
                              cs0: map<NodeId, Cloud>, ic0: map<NodeId, Option<NodeId>>,
                              cs1: map<NodeId, Cloud>, ic1: map<NodeId, Option<NodeId>>)
    requires Grew(c, cs0, ic0, cs1, ic1) && Partition(nodes, ic0, cs0) && Partition(nodes, ic1, cs1)
    requires OthersClosed(nodes, macToId, ic0, cs0, c)
    ensures OthersClosed(nodes, macToId, ic1, cs1, c)
  {
    forall d | d in cs1 && d != c
      ensures MembersReached(nodes, macToId, ic1, cs1[d].members, d)
    {
      assert cs1[d] == cs0[d];
      assert CloudOk(nodes, ic1, d, cs1[d]);
      forall m | m in cs1[d].members
        ensures m in nodes && AllReached(nodes, macToId, ic1, nodes[m].neighbours, |nodes[m].neighbours|, d)
      {
        assert AllReached(nodes, macToId, ic0, nodes[m].neighbours, |nodes[m].neighbours|, d);
        forall j | 0 <= j < |nodes[m].neighbours|
          ensures ReachedIn(nodes, macToId, ic1, nodes[m].neighbours[j], d)
        {
          assert ReachedIn(nodes, macToId, ic0, nodes[m].neighbours[j], d);
        }
      }
    }
  }

  /** The members of an absorbed closed cloud reach, once re-pointed, only the cloud that absorbed them. */
  lemma RepointedKeepsReached(nodes: map<NodeId, Node>, macToId: map<Mac, NodeId>, ic: map<NodeId, Option<NodeId>>,
                              members: seq<NodeId>, d: NodeId, c: NodeId)
    requires MembersReached(nodes, macToId, ic, members, d)
    ensures MembersReached(nodes, macToId, Repointed(ic, d, c), members, c)
  {
    var ic1 := Repointed(ic, d, c);
    forall m | m in members
      ensures m in nodes && AllReached(nodes, macToId, ic1, nodes[m].neighbours, |nodes[m].neighbours|, c)
    {
      forall j | 0 <= j < |nodes[m].neighbours|
        ensures ReachedIn(nodes, macToId, ic1, nodes[m].neighbours[j], c)
      {
        assert ReachedIn(nodes, macToId, ic, nodes[m].neighbours[j], d);
      }
    }
  }

  /** Cloud `c` absorbing the closed cloud `d` is a growth that keeps every other cloud closed and gains closed members. */
  lemma MergeKeepsClosure(nodes: map<NodeId, Node>, macToId: map<Mac, NodeId>,
                          cs0: map<NodeId, Cloud>, ic0: map<NodeId, Option<NodeId>>, c: NodeId, d: NodeId)
    requires c in cs0 && d in cs0 && c != d
    requires Partition(nodes, ic0, cs0) && Partition(nodes, Repointed(ic0, d, c), cs0[c := MergeCloud(cs0[c], cs0[d])] - {d})
    requires OthersClosed(nodes, macToId, ic0, cs0, c)
    ensures var cs1, ic1 := cs0[c := MergeCloud(cs0[c], cs0[d])] - {d}, Repointed(ic0, d, c);
      && Grew(c, cs0, ic0, cs1, ic1)
      && OthersClosed(nodes, macToId, ic1, cs1, c)
      && MembersReached(nodes, macToId, ic1, Gained(cs0, cs1, c), c)
  {
    var cs1, ic1 := cs0[c := MergeCloud(cs0[c], cs0[d])] - {d}, Repointed(ic0, d, c);
    MergeGrows(cs0, ic0, c, d);
    GrewKeepsOthersClosed(nodes, macToId, c, cs0, ic0, cs1, ic1);
    RepointedKeepsReached(nodes, macToId, ic0, cs0[d].members, d, c);
    assert Gained(cs0, cs1, c) == cs0[d].members;
  }

  /** The gains of two successive growth steps add up to the gain of both. */
  lemma GainedTwice(nodes: map<NodeId, Node>, macToId: map<Mac, NodeId>, ic: map<NodeId, Option<NodeId>>, c: NodeId,
                    s0: seq<NodeId>, s1: seq<NodeId>, s2: seq<NodeId>)
    requires |s0| <= |s1| <= |s2| && s1[..|s0|] == s0 && s2[..|s1|] == s1
    requires MembersReached(nodes, macToId, ic, s1[|s0|..], c) && MembersReached(nodes, macToId, ic, s2[|s1|..], c)
    ensures MembersReached(nodes, macToId, ic, s2[|s0|..], c)
  {
    forall m | m in s2[|s0|..]
      ensures m in nodes && AllReached(nodes, macToId, ic, nodes[m].neighbours, |nodes[m].neighbours|, c)
    {
      var i :| |s0| <= i < |s2| && s2[i] == m;
      if i < |s1| {
        assert s1[i] == m;
        assert m in s1[|s0|..];
      } else {
        assert m in s2[|s1|..];
      }
    }
  }

  /** One neighbour visit of the growth: the growth so far, the neighbours reached and the gained members' closure all carry over. */
  lemma GrowthStep(nodes: map<NodeId, Node>, macToId: map<Mac, NodeId>, c: NodeId,
                   cs0: map<NodeId, Cloud>, ic0: map<NodeId, Option<NodeId>>, cs1: map<NodeId, Cloud>, ic1: map<NodeId, Option<NodeId>>,
                   cs2: map<NodeId, Cloud>, ic2: map<NodeId, Option<NodeId>>, macs: seq<Mac>, k: nat)
    requires Grew(c, cs0, ic0, cs1, ic1) && Grew(c, cs1, ic1, cs2, ic2)
    requires k < |macs| && AllReached(nodes, macToId, ic1, macs, k, c) && ReachedIn(nodes, macToId, ic2, macs[k], c)
    requires MembersReached(nodes, macToId, ic1, Gained(cs0, cs1, c), c)
    requires MembersReached(nodes, macToId, ic2, Gained(cs1, cs2, c), c)
    ensures Grew(c, cs0, ic0, cs2, ic2)
    ensures AllReached(nodes, macToId, ic2, macs, k + 1, c)
    ensures MembersReached(nodes, macToId, ic2, Gained(cs0, cs2, c), c)
  {
    GrewTransitive(c, cs0, ic0, cs1, ic1, cs2, ic2);
    GrewKeepsReached(nodes, macToId, c, cs1, ic1, cs2, ic2, macs, k);
    AllReachedStep(nodes, macToId, ic2, macs, k, c);
    GrewKeepsMembersReached(nodes, macToId, c, cs1, ic1, cs2, ic2, Gained(cs0, cs1, c));
    GainedTwice(nodes, macToId, ic2, c, cs0[c].members, cs1[c].members, cs2[c].members);
  }

  /** Dropping a cloud whose seed no other cloud reaches, and resetting the seed, keeps the remaining clouds closed. */
  lemma DiscardKeepsClosed(nodes: map<NodeId, Node>, macToId: map<Mac, NodeId>, ic: map<NodeId, Option<NodeId>>,
                           clouds: map<NodeId, Cloud>, x: NodeId)
    requires Closed(nodes, macToId, ic, clouds) && x in ic && ic[x] == Some(x)
    ensures Closed(nodes, macToId, ic[x := None], clouds - {x})
  {
    var ic1 := ic[x := None];
    forall d | d in clouds - {x}
      ensures MembersReached(nodes, macToId, ic1, (clouds - {x})[d].members, d)
    {
      forall m | m in clouds[d].members
        ensures m in nodes && AllReached(nodes, macToId, ic1, nodes[m].neighbours, |nodes[m].neighbours|, d)
      {
        assert MembersReached(nodes, macToId, ic, clouds[d].members, d);
        forall j | 0 <= j < |nodes[m].neighbours|
          ensures ReachedIn(nodes, macToId, ic1, nodes[m].neighbours[j], d)
        {
          assert ReachedIn(nodes, macToId, ic, nodes[m].neighbours[j], d);
        }
      }
    }
  }

  /** Node `a` lists a neighbour MAC that resolves to node `b`. */
  ghost predicate Adjacent(nodes: map<NodeId, Node>, macToId: map<Mac, NodeId>, a: NodeId, b: NodeId) {
    a in nodes && exists j | 0 <= j < |nodes[a].neighbours| :: nodes[a].neighbours[j] in macToId && macToId[nodes[a].neighbours[j]] == b
  }

  /** A mesh link between `a` and `b`, reported by either end. */
  ghost predicate Linked(nodes: map<NodeId, Node>, macToId: map<Mac, NodeId>, a: NodeId, b: NodeId) {
    Adjacent(nodes, macToId, a, b) || Adjacent(nodes, macToId, b, a)
  }

  /** `p` is a non-empty walk over mesh links that stays among `members`. */
  ghost predicate Walk(nodes: map<NodeId, Node>, macToId: map<Mac, NodeId>, members: seq<NodeId>, p: seq<NodeId>) {
    && |p| > 0
    && (forall i | 0 <= i < |p| :: p[i] in members)
    && (forall i | 0 <= i < |p| - 1 :: Linked(nodes, macToId, p[i], p[i + 1]))
  }

  /** Node `m` is reached from node `a` by a walk among `members`. */
  ghost predicate Joined(nodes: map<NodeId, Node>, macToId: map<Mac, NodeId>, members: seq<NodeId>, a: NodeId, m: NodeId) {
    exists p | Walk(nodes, macToId, members, p) :: p[0] == a && p[|p| - 1] == m
  }

  /** Every member is reached from seed `c` over mesh links between members: the cloud is one connected piece of the mesh. */
  ghost predicate Connected(nodes: map<NodeId, Node>, macToId: map<Mac, NodeId>, members: seq<NodeId>, c: NodeId) {
    forall m {:trigger Joined(nodes, macToId, members, c, m)} | m in members :: Joined(nodes, macToId, members, c, m)
  }

  /** Every cloud of the table is connected. */
  ghost predicate AllConnected(nodes: map<NodeId, Node>, macToId: map<Mac, NodeId>, clouds: map<NodeId, Cloud>) {
    forall d {:trigger Connected(nodes, macToId, clouds[d].members, d)} | d in clouds :: Connected(nodes, macToId, clouds[d].members, d)
  }

  lemma JoinedSelf(nodes: map<NodeId, Node>, macToId: map<Mac, NodeId>, s: seq<NodeId>, a: NodeId)
    requires a in s
    ensures Joined(nodes, macToId, s, a, a)
  {
    assert Walk(nodes, macToId, s, [a]);
  }

  /** A walk among some members is a walk among any list holding them. */
  lemma JoinedWiden(nodes: map<NodeId, Node>, macToId: map<Mac, NodeId>, s: seq<NodeId>, t: seq<NodeId>, a: NodeId, b: NodeId)
    requires Joined(nodes, macToId, s, a, b) && forall x | x in s :: x in t
    ensures Joined(nodes, macToId, t, a, b)
  {
    var p :| Walk(nodes, macToId, s, p) && p[0] == a && p[|p| - 1] == b;
    assert Walk(nodes, macToId, t, p);
  }

  /** A walk extended over one more link. */
  lemma JoinedStep(nodes: map<NodeId, Node>, macToId: map<Mac, NodeId>, s: seq<NodeId>, a: NodeId, b: NodeId, y: NodeId)
    requires Joined(nodes, macToId, s, a, b) && y in s && Linked(nodes, macToId, b, y)
    ensures Joined(nodes, macToId, s, a, y)
  {
    var p :| Walk(nodes, macToId, s, p) && p[0] == a && p[|p| - 1] == b;
    var q := p + [y];
    forall i | 0 <= i < |q| - 1
      ensures Linked(nodes, macToId, q[i], q[i + 1])
    {
      assert q[i] == p[i];
    }
    assert Walk(nodes, macToId, s, q);
  }

  /** Links work in both directions, so a walk can be taken backwards. */
  lemma {:induction false} JoinedBack(nodes: map<NodeId, Node>, macToId: map<Mac, NodeId>, s: seq<NodeId>, a: NodeId, b: NodeId)
    requires Joined(nodes, macToId, s, a, b)
    ensures Joined(nodes, macToId, s, b, a)
  {
    var p :| Walk(nodes, macToId, s, p) && p[0] == a && p[|p| - 1] == b;
    var q := seq(|p|, i requires 0 <= i < |p| => p[|p| - 1 - i]);
    forall i | 0 <= i < |q| - 1
      ensures Linked(nodes, macToId, q[i], q[i + 1])
    {
      assert Linked(nodes, macToId, p[|p| - 2 - i], p[|p| - 1 - i]);
    }
    assert Walk(nodes, macToId, s, q);
  }

  /** Two walks that meet make one. */
  lemma JoinedTrans(nodes: map<NodeId, Node>, macToId: map<Mac, NodeId>, s: seq<NodeId>, a: NodeId, b: NodeId, e: NodeId)
    requires Joined(nodes, macToId, s, a, b) && Joined(nodes, macToId, s, b, e)
    ensures Joined(nodes, macToId, s, a, e)
  {
    var p :| Walk(nodes, macToId, s, p) && p[0] == a && p[|p| - 1] == b;
    var q :| Walk(nodes, macToId, s, q) && q[0] == b && q[|q| - 1] == e;
    var w := p + q[1..];
    forall i | 0 <= i < |w| - 1
      ensures Linked(nodes, macToId, w[i], w[i + 1])
    {
      if i < |p| - 1 {
        assert w[i] == p[i] && w[i + 1] == p[i + 1];
      } else {
        assert w[i] == q[i - |p| + 1] && w[i + 1] == q[i - |p| + 2];
      }
    }
    assert Walk(nodes, macToId, s, w);
  }

  /** A node joining cloud `c` over a link from one of its members (or as the seed of the empty cloud) keeps every cloud connected. */
  lemma JoinKeepsConnected(nodes: map<NodeId, Node>, macToId: map<Mac, NodeId>, cs: map<NodeId, Cloud>, c: NodeId, n: NodeId, from: NodeId)
    requires AllConnected(nodes, macToId, cs) && c in cs && n in nodes
    requires cs[c].members == [] ==> n == c
    requires cs[c].members != [] ==> from in cs[c].members && Adjacent(nodes, macToId, from, n)
    ensures AllConnected(nodes, macToId, cs[c := AddMember(nodes, cs[c], n)])
  {
    var cs1 := cs[c := AddMember(nodes, cs[c], n)];
    var s, t := cs[c].members, cs1[c].members;
    assert t == s + [n];
    assert Connected(nodes, macToId, s, c);
    forall m | m in t
      ensures Joined(nodes, macToId, t, c, m)
    {
      if m in s {
        JoinedWiden(nodes, macToId, s, t, c, m);
      } else if s == [] {
        JoinedSelf(nodes, macToId, t, c);
      } else {
        JoinedWiden(nodes, macToId, s, t, c, from);
        JoinedStep(nodes, macToId, t, c, from, n);
      }
    }
    forall d | d in cs1
      ensures Connected(nodes, macToId, cs1[d].members, d)
    {
      if d != c {
        assert Connected(nodes, macToId, cs[d].members, d);
      }
    }
  }

  /** Cloud `c` absorbing cloud `d` over a link from a member of `c` to a member of `d` keeps every cloud connected. */
  lemma MergeKeepsConnected(nodes: map<NodeId, Node>, macToId: map<Mac, NodeId>, cs: map<NodeId, Cloud>, c: NodeId, d: NodeId,
                            from: NodeId, n: NodeId)
    requires AllConnected(nodes, macToId, cs) && c in cs && d in cs && c != d
    requires from in cs[c].members && n in cs[d].members && Adjacent(nodes, macToId, from, n)
    ensures AllConnected(nodes, macToId, cs[c := MergeCloud(cs[c], cs[d])] - {d})
  {
    var cs1 := cs[c := MergeCloud(cs[c], cs[d])] - {d};
    var s, u := cs[c].members, cs[d].members;
    var t := s + u;
    assert cs1[c].members == t;
    assert Connected(nodes, macToId, s, c) && Connected(nodes, macToId, u, d);
    JoinedWiden(nodes, macToId, s, t, c, from);
    JoinedStep(nodes, macToId, t, c, from, n);
    JoinedBack(nodes, macToId, u, d, n);
    JoinedWiden(nodes, macToId, u, t, n, d);
    JoinedTrans(nodes, macToId, t, c, n, d);
    forall m | m in t
      ensures Joined(nodes, macToId, t, c, m)
    {
      if m in s {
        JoinedWiden(nodes, macToId, s, t, c, m);
      } else {
        JoinedWiden(nodes, macToId, u, t, d, m);
        JoinedTrans(nodes, macToId, t, c, d, m);
      }
    }
    forall e | e in cs1
      ensures Connected(nodes, macToId, cs1[e].members, e)
    {
      if e != c {
        assert Connected(nodes, macToId, cs[e].members, e);
      }
    }
  }

  /**
   * In a closed table where every observed node outside the clouds is lonely, a mesh link from a member of cloud `c`,
   * in either direction, leads to another member of `c`: with `AllConnected`, each cloud is a connected component
   * of the links between observed nodes.
   */
  lemma LinkStaysInCloud(nodes: map<NodeId, Node>, macToId: map<Mac, NodeId>, inCloud: map<NodeId, Option<NodeId>>,
                         clouds: map<NodeId, Cloud>, c: NodeId, x: NodeId, y: NodeId)
    requires Partition(nodes, inCloud, clouds) && Closed(nodes, macToId, inCloud, clouds)
    requires forall z | z in nodes && inCloud[z].None? && nodes[z].status != Unknown :: Lonely(nodes, macToId, z)
    requires c in clouds && x in clouds[c].members && y in nodes && nodes[y].status != Unknown
    requires Linked(nodes, macToId, x, y)
    ensures y in clouds[c].members
  {
    assert CloudOk(nodes, inCloud, c, clouds[c]);
    if Adjacent(nodes, macToId, x, y) {
      var j :| 0 <= j < |nodes[x].neighbours| && nodes[x].neighbours[j] in macToId && macToId[nodes[x].neighbours[j]] == y;
      assert MembersReached(nodes, macToId, inCloud, clouds[c].members, c);
      assert ReachedIn(nodes, macToId, inCloud, nodes[x].neighbours[j], c);
    } else if x != y {
      var j :| 0 <= j < |nodes[y].neighbours| && nodes[y].neighbours[j] in macToId && macToId[nodes[y].neighbours[j]] == x;
      assert inCloud[y].Some? by {
        assert nodes[y].neighbours[j] in nodes[y].neighbours;
      }
      var d := inCloud[y].value;
      assert MembersReached(nodes, macToId, inCloud, clouds[d].members, d);
      assert ReachedIn(nodes, macToId, inCloud, nodes[y].neighbours[j], d);
    }
  }

  /** Dropping a cloud keeps the remaining clouds connected. */
  lemma DiscardKeepsConnected(nodes: map<NodeId, Node>, macToId: map<Mac, NodeId>, clouds: map<NodeId, Cloud>, x: NodeId)
    requires AllConnected(nodes, macToId, clouds)
    ensures AllConnected(nodes, macToId, clouds - {x})
  {
    forall d | d in clouds - {x}
      ensures Connected(nodes, macToId, (clouds - {x})[d].members, d)
    {
      assert Connected(nodes, macToId, clouds[d].members, d);
    }
  }

  /** A cloud left in the table after seeding: seeded at an observed node with neighbours, at least two members, no segment decided yet. */
  ghost predicate Seeded(nodes: map<NodeId, Node>, clouds: map<NodeId, Cloud>, c: NodeId) {
    && c in clouds && c in nodes && nodes[c].status != Unknown && |nodes[c].neighbours| > 0
    && |clouds[c].members| >= 2 && clouds[c].cloudSegment == None
  }

  ghost predicate AllSeeded(nodes: map<NodeId, Node>, clouds: map<NodeId, Cloud>) {
    forall c | c in clouds :: Seeded(nodes, clouds, c)
  }

  /**
   * Growing a fresh cloud at `x` leaves the other clouds as they were and assigns only nodes to `x`'s cloud:
   * the table stays seeded once `x`'s cloud is either kept with two members or dropped.
   */
  lemma GrowKeepsSeeded(nodes: map<NodeId, Node>, cs0: map<NodeId, Cloud>, ic0: map<NodeId, Option<NodeId>>,
                        cs1: map<NodeId, Cloud>, ic1: map<NodeId, Option<NodeId>>, x: NodeId)
    requires AllSeeded(nodes, cs0) && x !in cs0 && Grew(x, cs0[x := EmptyCloud()], ic0, cs1, ic1)
    requires x in nodes && nodes[x].status != Unknown && |nodes[x].neighbours| > 0
    ensures |cs1[x].members| >= 2 ==> AllSeeded(nodes, cs1)
    ensures AllSeeded(nodes, cs1 - {x})
    ensures forall y | y in ic1 && ic1[y].None? :: ic0[y].None?
  {
    forall c | c in cs1 && c != x
      ensures Seeded(nodes, cs1, c) && Seeded(nodes, cs1 - {x}, c)
    {
      assert cs1[c] == cs0[c];
      assert Seeded(nodes, cs0, c);
    }
  }

  /** Every neighbour of `x` that resolves to an observed node is `x` itself: `x` forms no cloud. */
  ghost predicate Lonely(nodes: map<NodeId, Node>, macToId: map<Mac, NodeId>, x: NodeId) {
    x in nodes && forall mac | mac in nodes[x].neighbours && mac in macToId ::
      macToId[mac] in nodes && (nodes[macToId[mac]].status == Unknown || macToId[mac] == x)
  }

  /** Every observed node among the first `i` ids that is in no cloud is lonely. */
  ghost predicate LonelyUpTo(nodes: map<NodeId, Node>, macToId: map<Mac, NodeId>, ids: seq<NodeId>, inCloud: map<NodeId, Option<NodeId>>, i: nat)
    requires i <= |ids|
  {
    forall j | 0 <= j < i && ids[j] in inCloud && inCloud[ids[j]].None? && ids[j] in nodes && nodes[ids[j]].status != Unknown ::
      Lonely(nodes, macToId, ids[j])
  }

  /** One step of the cloud-building scan keeps `LonelyUpTo` when it leaves no earlier node newly unassigned. */
  lemma LonelyUpToStep(nodes: map<NodeId, Node>, macToId: map<Mac, NodeId>, ids: seq<NodeId>, ic0: map<NodeId, Option<NodeId>>, ic1: map<NodeId, Option<NodeId>>, i: nat)
    requires i < |ids| && Distinct(ids) && LonelyUpTo(nodes, macToId, ids, ic0, i)
    requires forall y | y in ic1 && ic1[y].None? && y != ids[i] :: y in ic0 && ic0[y].None?
    requires ids[i] in ic1 && ic1[ids[i]].None? && ids[i] in nodes && nodes[ids[i]].status != Unknown ==> Lonely(nodes, macToId, ids[i])
    ensures LonelyUpTo(nodes, macToId, ids, ic1, i + 1)
  {
    forall j | 0 <= j < i + 1 && ids[j] in ic1 && ic1[ids[j]].None? && ids[j] in nodes && nodes[ids[j]].status != Unknown
      ensures Lonely(nodes, macToId, ids[j])
    {
      if j < i {
        assert ids[j] != ids[i];
      }
    }
  }

  /** The totals of a cloud see only `Clients`, `GluonType` and `Status`, so rewriting `DestSeg` keeps them. */
  lemma {:induction false} DestSegKeepsTotals(nodes0: map<NodeId, Node>, nodes1: map<NodeId, Node>, s: seq<NodeId>)
    requires forall m | m in s :: m in nodes0
    requires nodes1.Keys == nodes0.Keys && forall y | y in nodes0 :: nodes1[y] == nodes0[y].(destSeg := nodes1[y].destSeg)
    ensures SumClients(nodes1, s) == SumClients(nodes0, s) && MinGluon(nodes1, s) == MinGluon(nodes0, s)
  {
    if s != [] {
      DestSegKeepsTotals(nodes0, nodes1, s[..|s| - 1]);
    }
  }

  /** Rewriting the `DestSeg` of nodes and the `CloudSegment` of clouds keeps the cloud table and `InCloud` in agreement. */
  lemma DestSegKeepsPartition(nodes0: map<NodeId, Node>, nodes1: map<NodeId, Node>, inCloud: map<NodeId, Option<NodeId>>,
                              clouds0: map<NodeId, Cloud>, clouds1: map<NodeId, Cloud>)
    requires Partition(nodes0, inCloud, clouds0)
    requires nodes1.Keys == nodes0.Keys && forall y | y in nodes0 :: nodes1[y] == nodes0[y].(destSeg := nodes1[y].destSeg)
    requires clouds1.Keys == clouds0.Keys && forall c | c in clouds0 :: clouds1[c] == clouds0[c].(cloudSegment := clouds1[c].cloudSegment)
    ensures Partition(nodes1, inCloud, clouds1)
  {
    forall c | c in clouds1 ensures CloudOk(nodes1, inCloud, c, clouds1[c]) {
      assert CloudOk(nodes0, inCloud, c, clouds0[c]);
      DestSegKeepsTotals(nodes0, nodes1, clouds0[c].members);
    }
  }

  /** A merge keeps the arena whole and leaves the set of nodes in no cloud as it was. */
  lemma MergeKeepsArena(ids: seq<NodeId>, nodes: map<NodeId, Node>, macToId: map<Mac, NodeId>,
                        inCloud: map<NodeId, Option<NodeId>>, clouds: map<NodeId, Cloud>, cloudOrder: seq<NodeId>, c: NodeId, d: NodeId)
    requires Arena(ids, nodes, macToId, inCloud, clouds, cloudOrder)
    requires c in clouds && d in clouds && c != d && clouds[c].members != []
    ensures Arena(ids, nodes, macToId, Repointed(inCloud, d, c), clouds[c := MergeCloud(clouds[c], clouds[d])] - {d}, RemoveId(cloudOrder, d))
    ensures Unassigned(Repointed(inCloud, d, c)) == Unassigned(inCloud)
  {
    MergeKeepsPartition(nodes, inCloud, clouds, c, d);
    RemoveIdKeepsOrder(cloudOrder, clouds, d);
  }
}
