/**
 * What the per-cloud check computes: the scan of a cloud's members into uplink segments and the desired and
 * fixed segment dicts, the decision taken on the resolver's answer, and the moves scheduled for the cloud.
 */
module CloudCheck {
  import opened Common
  import opened MeshTypes
  import opened SegmentVote

  //---------------------------------------------------------------------------
  // Dicts of node lists
  //---------------------------------------------------------------------------

  /** Appends `x` to the list under `k`, creating the list (and its place in the order) when `k` is new. */
  function Insert<K(==)>(g: Groups<K>, k: K, x: NodeId): Groups<K> {
    if k in g.members then g.(members := g.members[k := g.members[k] + [x]])
    else Groups(g.order + [k], g.members[k := [x]])
  }

  /** Appending keeps a dict well formed and adds `x` under `k`, and nothing else. */
  lemma InsertOk<K(!new)>(g: Groups<K>, nodes: map<NodeId, Node>, k: K, x: NodeId)
    requires GroupsOk(g, nodes) && x in nodes
    ensures GroupsOk(Insert(g, k, x), nodes)
    ensures forall s, y :: s in Insert(g, k, x).members && y in Insert(g, k, x).members[s] <==>
      (s in g.members && y in g.members[s]) || (s == k && y == x)
  {
    var h := Insert(g, k, x);
    if k !in g.members {
      forall i, j | 0 <= i < j < |h.order| ensures h.order[i] != h.order[j] {
        if j == |g.order| {
          assert g.order[i] in g.order;
        } else {
          assert h.order[i] == g.order[i] && h.order[j] == g.order[j];
        }
      }
      assert forall s :: s in h.order <==> s in g.order || s == k;
    }
    forall s | s in h.members ensures InTable(h.members[s], nodes) {
      if s != k {
        assert h.members[s] == g.members[s];
      } else if k in g.members {
        assert InTable(g.members[k], nodes);
      }
    }
  }

  /** The empty dict. */
  function NoGroups<K>(): Groups<K> {
    Groups([], map[])
  }

  //---------------------------------------------------------------------------
  // The member scan
  //---------------------------------------------------------------------------

  /** A node in manual mode with a VPN key asks for the segment of its key. */
  function Override(n: Node): (r: Node)
    ensures r.destSeg == (if IsManual(n) && n.keyDir.Some? then n.keyDir else n.destSeg)
  {
    if IsManual(n) && n.keyDir.Some? then n.(destSeg := n.keyDir) else n
  }

  /** The scan state: the node table, the distinct uplink segments, whether a member is online, the two dicts. */
  datatype Scan = Scan(nodes: map<NodeId, Node>, uplinkSegs: seq<int>, isOnline: bool, desired: Groups<int>, fixed: Groups<Option<int>>)

  /**
   * One member: an online uplink member contributes its key's segment; the manual override is applied; the member
   * joins the desired dict under its `DestSeg` and, when fixed, the fixed dict under its current `Segment`.
   */
  function ScanStep(online: set<NodeId>, sc: Scan, x: NodeId): Scan
    requires x in sc.nodes
  {
    var n := sc.nodes[x];
    var ups := if x in online && n.status == Uplink && n.keyDir.Some? && n.keyDir.value !in sc.uplinkSegs
               then sc.uplinkSegs + [n.keyDir.value] else sc.uplinkSegs;
    var n' := Override(n);
    var desired := if n'.destSeg.Some? then Insert(sc.desired, n'.destSeg.value, x) else sc.desired;
    var fixed := if IsFixed(n') then Insert(sc.fixed, n'.segment, x) else sc.fixed;
    Scan(sc.nodes[x := n'], ups, sc.isOnline || x in online, desired, fixed)
  }

  /** The scan over a cloud's members in order. */
  function ScanCloud(nodes: map<NodeId, Node>, online: set<NodeId>, members: seq<NodeId>): (r: Scan)
    requires InTable(members, nodes)
    ensures r.nodes.Keys == nodes.Keys
  {
    if members == [] then Scan(nodes, [], false, NoGroups(), NoGroups())
    else
      var sc := ScanCloud(nodes, online, members[..|members| - 1]);
      assert members[|members| - 1] in members;
      ScanStep(online, sc, members[|members| - 1])
  }

  /** The scan overrides exactly the members' records, and only their `DestSeg`. */
  lemma {:induction false} ScanNodes(nodes: map<NodeId, Node>, online: set<NodeId>, members: seq<NodeId>)
    requires InTable(members, nodes)
    ensures forall y | y in nodes :: ScanCloud(nodes, online, members).nodes[y] == if y in members then Override(nodes[y]) else nodes[y]
  {
    if members != [] {
      var q := members[..|members| - 1];
      var x := members[|members| - 1];
      ScanNodes(nodes, online, q);
      assert forall y :: y in members <==> y in q || y == x;
    }
  }

  /** Both dicts of the scan are well formed. */
  lemma {:induction false} ScanGroupsOk(nodes: map<NodeId, Node>, online: set<NodeId>, members: seq<NodeId>)
    requires InTable(members, nodes)
    ensures GroupsOk(ScanCloud(nodes, online, members).desired, nodes)
    ensures GroupsOk(ScanCloud(nodes, online, members).fixed, nodes)
  {
    if members != [] {
      var q := members[..|members| - 1];
      var x := members[|members| - 1];
      ScanGroupsOk(nodes, online, q);
      var sc := ScanCloud(nodes, online, q);
      var n' := Override(sc.nodes[x]);
      assert x in members;
      if n'.destSeg.Some? {
        InsertOk(sc.desired, nodes, n'.destSeg.value, x);
      }
      if IsFixed(n') {
        InsertOk(sc.fixed, nodes, n'.segment, x);
      }
    }
  }

  /** The cloud counts as online exactly when one of its members is. */
  lemma {:induction false} ScanOnline(nodes: map<NodeId, Node>, online: set<NodeId>, members: seq<NodeId>)
    requires InTable(members, nodes)
    ensures ScanCloud(nodes, online, members).isOnline <==> exists x | x in members :: x in online
  {
    if members != [] {
      var q := members[..|members| - 1];
      ScanOnline(nodes, online, q);
      assert forall y :: y in members <==> y in q || y == members[|members| - 1];
    }
  }

  /** The uplink segments are distinct, and are the key segments of the online uplink members. */
  lemma {:induction false} ScanUplinks(nodes: map<NodeId, Node>, online: set<NodeId>, members: seq<NodeId>)
    requires InTable(members, nodes)
    ensures Distinct(ScanCloud(nodes, online, members).uplinkSegs)
    ensures forall s :: s in ScanCloud(nodes, online, members).uplinkSegs <==>
      exists x | x in members :: x in online && nodes[x].status == Uplink && nodes[x].keyDir == Some(s)
  {
    if members != [] {
      var q := members[..|members| - 1];
      var x := members[|members| - 1];
      ScanUplinks(nodes, online, q);
      ScanNodes(nodes, online, q);
      var sc := ScanCloud(nodes, online, q);
      assert x in members;
      assert sc.nodes[x].status == nodes[x].status && sc.nodes[x].keyDir == nodes[x].keyDir;
      assert forall y :: y in members <==> y in q || y == x;
      var ups := ScanCloud(nodes, online, members).uplinkSegs;
      if ups != sc.uplinkSegs {
        forall i, j | 0 <= i < j < |ups| ensures ups[i] != ups[j] {
          if j == |sc.uplinkSegs| {
            assert ups[i] in sc.uplinkSegs;
          } else {
            assert ups[i] == sc.uplinkSegs[i] && ups[j] == sc.uplinkSegs[j];
          }
        }
      }
    }
  }

  /** The desired dict lists each member under the `DestSeg` it has after the override. */
  lemma {:induction false} ScanDesired(nodes: map<NodeId, Node>, online: set<NodeId>, members: seq<NodeId>)
    requires InTable(members, nodes)
    ensures forall s, y :: s in ScanCloud(nodes, online, members).desired.members && y in ScanCloud(nodes, online, members).desired.members[s] <==>
      y in members && Override(nodes[y]).destSeg == Some(s)
  {
    if members != [] {
      var q := members[..|members| - 1];
      var x := members[|members| - 1];
      ScanDesired(nodes, online, q);
      ScanNodes(nodes, online, q);
      ScanGroupsOk(nodes, online, q);
      var sc := ScanCloud(nodes, online, q);
      assert x in members;
      var n' := Override(sc.nodes[x]);
      assert n'.destSeg == Override(nodes[x]).destSeg;
      assert forall y :: y in members <==> y in q || y == x;
      if n'.destSeg.Some? {
        InsertOk(sc.desired, nodes, n'.destSeg.value, x);
      } else {
        assert ScanCloud(nodes, online, members).desired == sc.desired;
      }
    }
  }

  /** The fixed dict lists each fixed member under its current `Segment`. */
  lemma {:induction false} ScanFixedNodes(nodes: map<NodeId, Node>, online: set<NodeId>, members: seq<NodeId>)
    requires InTable(members, nodes)
    ensures forall s, y :: s in ScanCloud(nodes, online, members).fixed.members && y in ScanCloud(nodes, online, members).fixed.members[s] <==>
      y in members && IsFixed(nodes[y]) && nodes[y].segment == s
  {
    if members != [] {
      var q := members[..|members| - 1];
      var x := members[|members| - 1];
      ScanFixedNodes(nodes, online, q);
      ScanNodes(nodes, online, q);
      ScanGroupsOk(nodes, online, q);
      var sc := ScanCloud(nodes, online, q);
      assert x in members;
      var n' := Override(sc.nodes[x]);
      assert IsFixed(n') == IsFixed(nodes[x]) && n'.segment == nodes[x].segment;
      if IsFixed(n') {
        InsertOk(sc.fixed, nodes, n'.segment, x);
      }
      assert forall y :: y in members <==> y in q || y == x;
    }
  }

  //---------------------------------------------------------------------------
  // The decision on one cloud
  //---------------------------------------------------------------------------

  /**
   * What the check does with one cloud: whether it completes, the segment stored for the cloud, the segment its
   * members are scheduled into (if any), the alerts raised (the resolver's first) and whether actions get blocked.
   */
  datatype Verdict = Verdict(ok: bool, cloudSegment: Option<int>, markTarget: Option<int>, alerts: seq<Alert>, blocks: bool)

  /**
   * The decision on the scan and the resolver's answer. It fails when the resolver failed, or when the default
   * segment 0 is to be replaced by the first uplink segment of a cloud that has none.
   */
  function Decide(sc: Scan, d: Decision): (v: Verdict)
    ensures v.ok <==> d.ok && !(sc.uplinkSegs == [] && !sc.isOnline && sc.fixed.order == [] && d.target == Some(0))
    ensures v.ok ==> |v.alerts| >= |d.alerts| && v.alerts[..|d.alerts|] == d.alerts
    ensures v.ok && (|sc.uplinkSegs| > 1 || d.target.None?) ==> ShortcutDetected in v.alerts
    ensures v.ok && d.target.None? ==> v.blocks && v.markTarget.None? && ShortcutUncorrectable in v.alerts
    ensures v.blocks ==> d.target.None?
    ensures v.ok && |sc.uplinkSegs| == 0 && sc.isOnline ==> v.markTarget.None?
    ensures v.ok && v.cloudSegment != d.target ==> d.target == Some(0) && |sc.uplinkSegs| == 1 && v.cloudSegment == Some(sc.uplinkSegs[0])
    ensures v.markTarget.Some? ==> v.markTarget == v.cloudSegment
  {
    if !d.ok then Verdict(false, d.target, None, d.alerts, false)
    else if |sc.uplinkSegs| > 1 || d.target.None? then
      if d.target.None? then Verdict(true, None, None, d.alerts + [ShortcutDetected, ShortcutUncorrectable], true)
      else Verdict(true, d.target, d.target, d.alerts + [ShortcutDetected, ShortcutCorrected], false)
    else if |sc.uplinkSegs| == 0 && sc.isOnline then Verdict(true, d.target, None, d.alerts, false)
    else if sc.fixed.order != [] then Verdict(true, d.target, d.target, d.alerts, false)
    else if d.target == Some(0) then
      if sc.uplinkSegs == [] then Verdict(false, d.target, None, d.alerts, false)
      else Verdict(true, Some(sc.uplinkSegs[0]), Some(sc.uplinkSegs[0]), d.alerts, false)
    else Verdict(true, d.target, d.target, d.alerts, false)
  }

  //---------------------------------------------------------------------------
  // Moves
  //---------------------------------------------------------------------------

  /** A node whose VPN key sits in another segment than `target`. */
  predicate Movable(n: Node, target: int) {
    n.keyDir.Some? && n.keyDir.value != target
  }

  /** `__MarkNodesInCloudForMove`: every member with a key in another segment is scheduled into `target`, except into segment 0. */
  function Marked(moves: map<NodeId, int>, nodes: map<NodeId, Node>, members: seq<NodeId>, target: int): (r: map<NodeId, int>)
    requires InTable(members, nodes)
    ensures target == 0 ==> r == moves
    ensures forall x :: x in r <==> x in moves || (target != 0 && x in members && Movable(nodes[x], target))
    ensures forall x | x in r :: r[x] == if target != 0 && x in members && Movable(nodes[x], target) then target else moves[x]
  {
    if members == [] then moves
    else
      var m := Marked(moves, nodes, members[..|members| - 1], target);
      var x := members[|members| - 1];
      assert forall y :: y in members <==> y in members[..|members| - 1] || y == x;
      if Movable(nodes[x], target) && target != 0 then m[x := target] else m
  }

  /** Marking one member more extends the marks of the members before it. */
  lemma MarkedStep(moves: map<NodeId, int>, nodes: map<NodeId, Node>, members: seq<NodeId>, target: int, i: nat)
    requires InTable(members, nodes) && i < |members|
    ensures InTable(members[..i], nodes) && InTable(members[..i + 1], nodes)
    ensures var m, x := Marked(moves, nodes, members[..i], target), members[i];
      Marked(moves, nodes, members[..i + 1], target) == if Movable(nodes[x], target) && target != 0 then m[x := target] else m
  {
    assert members[..i + 1][..i] == members[..i];
  }

  /** `__CheckSingleNodes` for one node: the move it schedules, if any. */
  function SingleMove(n: Node, unassigned: bool): (r: Option<int>)
    ensures n.status != Unknown ==>
      (r.Some? <==>
        && unassigned && n.keyDir.Some? && n.gluonType >= NodeTypeSegmentList && n.keyDir.value <= 64
        && IsAutoOrFixSpace(n) && n.destSeg.Some? && Eligible(n, n.destSeg.value) && n.keyDir.value != n.destSeg.value)
    ensures n.status != Unknown && r.Some? ==> r == n.destSeg
    ensures n.status == Unknown ==>
      r == if n.destSeg == Some(KillSegment) && n.keyDir.Some? && n.keyFile != "" then Some(KillSegment) else None
  {
    if unassigned && n.status != Unknown && n.keyDir.Some? && n.gluonType >= NodeTypeSegmentList && n.keyDir.value <= 64 then
      if IsAutoOrFixSpace(n) && n.destSeg.Some? && Eligible(n, n.destSeg.value) && n.keyDir.value != n.destSeg.value
      then n.destSeg else None
    else if n.status == Unknown && n.destSeg == Some(KillSegment) && n.keyDir.Some? && n.keyFile != "" then Some(KillSegment)
    else None
  }

  /** `__CheckSingleNodes` over the nodes listed in `ids`: each node that schedules a move gets it, other entries stay. */
  function SingleMoves(moves: map<NodeId, int>, nodes: map<NodeId, Node>, inCloud: map<NodeId, Option<NodeId>>, ids: seq<NodeId>): (r: map<NodeId, int>)
    requires forall x | x in ids :: x in nodes && x in inCloud
    ensures forall x :: x in r <==> x in moves || (x in ids && SingleMove(nodes[x], inCloud[x].None?).Some?)
    ensures forall x | x in r ::
      r[x] == if x in ids && SingleMove(nodes[x], inCloud[x].None?).Some? then SingleMove(nodes[x], inCloud[x].None?).value else moves[x]
  {
    if ids == [] then moves
    else
      var m := SingleMoves(moves, nodes, inCloud, ids[..|ids| - 1]);
      var x := ids[|ids| - 1];
      assert forall y :: y in ids <==> y in ids[..|ids| - 1] || y == x;
      match SingleMove(nodes[x], inCloud[x].None?)
      case Some(seg) => m[x := seg]
      case None => m
  }

  //---------------------------------------------------------------------------
  // The check over all clouds
  //---------------------------------------------------------------------------

  /** A dict built over one node table stays well formed over a table with the same keys. */
  lemma GroupsOkKeys<K(!new)>(g: Groups<K>, nodes0: map<NodeId, Node>, nodes1: map<NodeId, Node>)
    requires GroupsOk(g, nodes0) && nodes0.Keys == nodes1.Keys
    ensures GroupsOk(g, nodes1)
  {
    forall k | k in g.members ensures InTable(g.members[k], nodes1) {
      assert InTable(g.members[k], nodes0);
    }
  }

  /** What the cloud check threads from cloud to cloud; `ok` turns false when the run breaks off. */
  datatype Outcome = Outcome(nodes: map<NodeId, Node>, clouds: map<NodeId, Cloud>, moves: map<NodeId, int>,
                             alerts: seq<Alert>, analyseOnly: bool, ok: bool)

  /** Two outcomes differ at most in the `DestSeg` of nodes and the `CloudSegment` of clouds. */
  ghost predicate SameShape(o: Outcome, r: Outcome) {
    && r.nodes.Keys == o.nodes.Keys && r.clouds.Keys == o.clouds.Keys
    && (forall y | y in o.nodes :: r.nodes[y] == o.nodes[y].(destSeg := r.nodes[y].destSeg))
    && (forall c | c in o.clouds :: r.clouds[c] == o.clouds[c].(cloudSegment := r.clouds[c].cloudSegment))
  }

  /** The scan changes nothing of a node but its `DestSeg`. */
  lemma ScanShape(nodes: map<NodeId, Node>, online: set<NodeId>, members: seq<NodeId>)
    requires InTable(members, nodes)
    ensures forall y | y in nodes :: ScanCloud(nodes, online, members).nodes[y] == nodes[y].(destSeg := ScanCloud(nodes, online, members).nodes[y].destSeg)
  {
    ScanNodes(nodes, online, members);
  }

  /** Outcomes of the same shape agree on the members of every cloud and on the keys of the node table. */
  lemma SameShapeCovers(o: Outcome, r: Outcome, order: seq<NodeId>)
    requires SameShape(o, r)
    requires forall c | c in order :: c in o.clouds && InTable(o.clouds[c].members, o.nodes)
    ensures forall c | c in order :: c in r.clouds && InTable(r.clouds[c].members, r.nodes)
  {
    forall c | c in order ensures c in r.clouds && InTable(r.clouds[c].members, r.nodes) {
      assert r.clouds[c].members == o.clouds[c].members;
      assert InTable(o.clouds[c].members, o.nodes);
    }
  }

  /** Having the same shape is transitive. */
  lemma SameShapeTrans(o: Outcome, p: Outcome, r: Outcome)
    requires SameShape(o, p) && SameShape(p, r)
    ensures SameShape(o, r)
  {
  }

  /**
   * The effect of verdict `v` on cloud `c` of `o`: the cloud segment is stored and the moves are scheduled unless the
   * run breaks off, the alerts are appended, and a blocking verdict sets `AnalyseOnly`.
   */
  function Apply(o: Outcome, c: NodeId, v: Verdict): (r: Outcome)
    requires c in o.clouds && InTable(o.clouds[c].members, o.nodes)
  {
    Outcome(o.nodes,
            if v.ok then o.clouds[c := o.clouds[c].(cloudSegment := v.cloudSegment)] else o.clouds,
            if v.ok && v.markTarget.Some? then Marked(o.moves, o.nodes, o.clouds[c].members, v.markTarget.value) else o.moves,
            o.alerts + v.alerts,
            o.analyseOnly || v.blocks,
            v.ok)
  }

  /**
   * The check of cloud `c`: scan its members, resolve the cloud segment, decide, schedule the moves and store the
   * cloud segment. When the run breaks off, the overrides of the scan are all that is left of this cloud.
   */
  function CheckCloud(online: set<NodeId>, o: Outcome, c: NodeId): (r: Outcome)
    requires c in o.clouds && InTable(o.clouds[c].members, o.nodes)
    ensures SameShape(o, r)
  {
    var members := o.clouds[c].members;
    var sc := ScanCloud(o.nodes, online, members);
    ScanGroupsOk(o.nodes, online, members);
    GroupsOkKeys(sc.desired, o.nodes, sc.nodes);
    GroupsOkKeys(sc.fixed, o.nodes, sc.nodes);
    ScanShape(o.nodes, online, members);
    Apply(o.(nodes := sc.nodes), c, Decide(sc, Resolve(sc.nodes, online, sc.desired, sc.fixed)))
  }

  /** The cloud check over the clouds in `order`; it stops at the first cloud that breaks the run off. */
  function CheckClouds(online: set<NodeId>, o: Outcome, order: seq<NodeId>): (r: Outcome)
    requires forall c | c in order :: c in o.clouds && InTable(o.clouds[c].members, o.nodes)
    ensures SameShape(o, r)
    ensures !o.ok ==> r == o
  {
    if order == [] then o
    else
      var p := CheckClouds(online, o, order[..|order| - 1]);
      SameShapeCovers(o, p, order);
      if !p.ok then p
      else
        var r := CheckCloud(online, p, order[|order| - 1]);
        SameShapeTrans(o, p, r);
        r
  }

  /** The next cloud of the order is still in the table after the clouds before it, with its members in the node table. */
  lemma CheckCloudsCovers(online: set<NodeId>, o: Outcome, order: seq<NodeId>, i: nat)
    requires i < |order|
    requires forall c | c in order :: c in o.clouds && InTable(o.clouds[c].members, o.nodes)
    ensures order[i] in CheckClouds(online, o, order[..i]).clouds
    ensures InTable(CheckClouds(online, o, order[..i]).clouds[order[i]].members, CheckClouds(online, o, order[..i]).nodes)
  {
    SameShapeCovers(o, CheckClouds(online, o, order[..i]), order);
  }

  /** One more cloud of the order, while the run goes on: the check of that cloud on the outcome so far. */
  lemma CheckCloudsSnoc(online: set<NodeId>, o: Outcome, order: seq<NodeId>, i: nat)
    requires i < |order|
    requires forall c | c in order :: c in o.clouds && InTable(o.clouds[c].members, o.nodes)
    requires order[i] in CheckClouds(online, o, order[..i]).clouds
    requires InTable(CheckClouds(online, o, order[..i]).clouds[order[i]].members, CheckClouds(online, o, order[..i]).nodes)
    requires CheckClouds(online, o, order[..i]).ok
    ensures CheckClouds(online, o, order[..i + 1]) == CheckCloud(online, CheckClouds(online, o, order[..i]), order[i])
  {
    var q := order[..i + 1];
    assert q[..|q| - 1] == order[..i] && q[|q| - 1] == order[i];
    var p := CheckClouds(online, o, order[..i]);
    assert CheckClouds(online, o, q) == CheckCloud(online, p, order[i]);
  }

  /** Once the run broke off after the first `i` clouds, the rest of the order changes nothing. */
  lemma {:induction false} CheckCloudsStops(online: set<NodeId>, o: Outcome, order: seq<NodeId>, i: nat)
    requires i <= |order|
    requires forall c | c in order :: c in o.clouds && InTable(o.clouds[c].members, o.nodes)
    requires !CheckClouds(online, o, order[..i]).ok
    ensures CheckClouds(online, o, order) == CheckClouds(online, o, order[..i])
    decreases |order| - i
  {
    if i < |order| {
      var r := CheckClouds(online, o, order[..i + 1]);
      assert order[..i + 1][..i] == order[..i];
      assert r == CheckClouds(online, o, order[..i]);
      CheckCloudsStops(online, o, order, i + 1);
    } else {
      assert order[..i] == order;
    }
  }

  /** Every entry of `m1` is an entry of `m0`, or moves a node with a key into another segment that is not 0. */
  ghost predicate MovesAway(m0: map<NodeId, int>, m1: map<NodeId, int>, nodes: map<NodeId, Node>) {
    forall x | x in m1 :: (x in m0 && m1[x] == m0[x]) || (x in nodes && m1[x] != 0 && Movable(nodes[x], m1[x]))
  }

  /** Alerts are only ever appended, and actions get blocked only together with the "cannot be corrected" alert. */
  ghost predicate AlertsAppended(o: Outcome, r: Outcome) {
    && |r.alerts| >= |o.alerts| && r.alerts[..|o.alerts|] == o.alerts
    && (r.analyseOnly ==> o.analyseOnly || ShortcutUncorrectable in r.alerts[|o.alerts|..])
  }

  /** The check of one cloud schedules moves for its own members only, and never into segment 0. */
  lemma CheckCloudMoves(online: set<NodeId>, o: Outcome, c: NodeId)
    requires c in o.clouds && InTable(o.clouds[c].members, o.nodes)
    ensures MovesAway(o.moves, CheckCloud(online, o, c).moves, o.nodes)
    ensures forall x | x in CheckCloud(online, o, c).moves && x !in o.moves :: x in o.clouds[c].members
    ensures AlertsAppended(o, CheckCloud(online, o, c))
  {
    var members := o.clouds[c].members;
    var sc := ScanCloud(o.nodes, online, members);
    ScanGroupsOk(o.nodes, online, members);
    GroupsOkKeys(sc.desired, o.nodes, sc.nodes);
    GroupsOkKeys(sc.fixed, o.nodes, sc.nodes);
    ScanShape(o.nodes, online, members);
    var v := Decide(sc, Resolve(sc.nodes, online, sc.desired, sc.fixed));
    var r := CheckCloud(online, o, c);
    assert r.alerts == o.alerts + v.alerts;
    assert r.alerts[|o.alerts|..] == v.alerts;
  }

  /** Over any number of clouds: only moves into a non-zero segment other than the one of the node's key. */
  lemma {:induction false} CheckCloudsMoves(online: set<NodeId>, o: Outcome, order: seq<NodeId>)
    requires forall c | c in order :: c in o.clouds && InTable(o.clouds[c].members, o.nodes)
    ensures MovesAway(o.moves, CheckClouds(online, o, order).moves, o.nodes)
  {
    if order != [] {
      var q := order[..|order| - 1];
      var c := order[|order| - 1];
      var p := CheckClouds(online, o, q);
      CheckCloudsMoves(online, o, q);
      SameShapeCovers(o, p, order);
      if p.ok {
        var r := CheckCloud(online, p, c);
        assert CheckClouds(online, o, order) == r;
        CheckCloudMoves(online, p, c);
        forall x | x in r.moves
          ensures (x in o.moves && r.moves[x] == o.moves[x]) || (x in o.nodes && r.moves[x] != 0 && Movable(o.nodes[x], r.moves[x]))
        {
          if !(x in p.moves && r.moves[x] == p.moves[x]) {
            assert p.nodes[x].keyDir == o.nodes[x].keyDir;
          }
        }
      } else {
        assert CheckClouds(online, o, order) == p;
      }
    }
  }

  /** Over any number of clouds: alerts are only appended, and a block comes with its alert. */
  lemma {:induction false} CheckCloudsAlerts(online: set<NodeId>, o: Outcome, order: seq<NodeId>)
    requires forall c | c in order :: c in o.clouds && InTable(o.clouds[c].members, o.nodes)
    ensures AlertsAppended(o, CheckClouds(online, o, order))
  {
    if order != [] {
      var q := order[..|order| - 1];
      var c := order[|order| - 1];
      var p := CheckClouds(online, o, q);
      CheckCloudsAlerts(online, o, q);
      SameShapeCovers(o, p, order);
      if p.ok {
        var r := CheckCloud(online, p, c);
        assert CheckClouds(online, o, order) == r;
        CheckCloudMoves(online, p, c);
        AlertsAppendedTrans(o, p, r);
      } else {
        assert CheckClouds(online, o, order) == p;
      }
    }
  }

  /** Appending alerts twice is appending alerts. */
  lemma AlertsAppendedTrans(o: Outcome, p: Outcome, r: Outcome)
    requires AlertsAppended(o, p) && AlertsAppended(p, r)
    ensures AlertsAppended(o, r)
  {
    assert r.alerts[..|o.alerts|] == p.alerts[..|o.alerts|];
    if r.analyseOnly && !o.analyseOnly {
      if p.analyseOnly {
        assert p.alerts[|o.alerts|..] == r.alerts[|o.alerts|..|p.alerts|];
      } else {
        assert r.alerts[|p.alerts|..] == r.alerts[|o.alerts|..][|p.alerts| - |o.alerts|..];
      }
    }
  }

}
