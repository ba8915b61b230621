/**
 * The segment resolver of one mesh cloud: nodes pinned to a segment take precedence, otherwise the
 * segments the members ask for are weighted and the heaviest one wins, the longest uptime breaking ties.
 */
module SegmentVote {
  import opened Common
  import opened MeshTypes

  /** A Python dict from a key to a list of node ids, with its insertion order. */
  datatype Groups<K> = Groups(order: seq<K>, members: map<K, seq<NodeId>>)

  /** The order lists every key once, and every listed node is in the table. */
  ghost predicate GroupsOk<K(!new)>(g: Groups<K>, nodes: map<NodeId, Node>) {
    && Distinct(g.order)
    && (forall k :: k in g.order <==> k in g.members)
    && (forall k | k in g.members :: InTable(g.members[k], nodes))
  }

  /** Every listed node is in the table. */
  ghost predicate InTable(xs: seq<NodeId>, nodes: map<NodeId, Node>) {
    forall x | x in xs :: x in nodes
  }

  //---------------------------------------------------------------------------
  // Fixed nodes
  //---------------------------------------------------------------------------

  /** A fixed node as the resolver meets it: the segment it is pinned to (possibly `None`) and its id. */
  type Pin = (Option<int>, NodeId)

  /** The pins of one group. */
  function Pairs(seg: Option<int>, xs: seq<NodeId>): (r: seq<Pin>)
    ensures |r| == |xs| && forall i | 0 <= i < |xs| :: r[i] == (seg, xs[i])
  {
    seq(|xs|, i requires 0 <= i < |xs| => (seg, xs[i]))
  }

  /** The pins of the groups listed in `order`, group after group. */
  function Pins(g: Groups<Option<int>>, order: seq<Option<int>>): seq<Pin>
    requires forall k | k in order :: k in g.members
  {
    if order == [] then []
    else Pins(g, order[..|order| - 1]) + Pairs(order[|order| - 1], g.members[order[|order| - 1]])
  }

  /** Every pinned node of the groups listed in `order` is in the table. */
  lemma {:induction false} PinsInTable(nodes: map<NodeId, Node>, g: Groups<Option<int>>, order: seq<Option<int>>)
    requires GroupsOk(g, nodes) && forall k | k in order :: k in g.members
    ensures forall i | 0 <= i < |Pins(g, order)| :: Pins(g, order)[i].1 in nodes
    decreases |order|
  {
    if order != [] {
      PinsInTable(nodes, g, order[..|order| - 1]);
      var k := order[|order| - 1];
      var a := Pins(g, order[..|order| - 1]);
      forall i | 0 <= i < |Pins(g, order)| ensures Pins(g, order)[i].1 in nodes {
        if i >= |a| {
          assert Pins(g, order)[i] == (k, g.members[k][i - |a|]);
        }
      }
    }
  }

  /** The scan state: the segment chosen so far, whether a conflict was met, the alerts raised. */
  datatype FixState = FixState(target: Option<int>, multi: bool, alerts: seq<Alert>)

  /**
   * One online fixed node: the first one sets the target; the first that disagrees ends the scan and,
   * when it is an uplink node, raises the shortcut alert and drops the target.
   */
  function FixStep(nodes: map<NodeId, Node>, online: set<NodeId>, st: FixState, p: Pin): FixState
    requires p.1 in nodes
  {
    if p.1 !in online || st.multi then st
    else if st.target.None? then st.(target := p.0)
    else if p.0 != st.target then
      if nodes[p.1].status == Uplink then FixState(None, true, st.alerts + [ShortcutFixedMultiSeg])
      else st.(multi := true)
    else st
  }

  /** The scan over the pins in order. */
  function FixScan(nodes: map<NodeId, Node>, online: set<NodeId>, ps: seq<Pin>): FixState
    requires forall i | 0 <= i < |ps| :: ps[i].1 in nodes
  {
    if ps == [] then FixState(None, false, [])
    else FixStep(nodes, online, FixScan(nodes, online, ps[..|ps| - 1]), ps[|ps| - 1])
  }

  /** Two online pins, the earlier one naming a segment, disagree. */
  ghost predicate Disagree(online: set<NodeId>, ps: seq<Pin>) {
    exists i, j | 0 <= i < j < |ps| :: ps[i].1 in online && ps[j].1 in online && ps[i].0.Some? && ps[j].0 != ps[i].0
  }

  /**
   * The scan reports a conflict exactly when two online fixed nodes disagree; without one, every online
   * fixed node naming a segment names the result, the result is some online node's segment, and no alert is raised.
   */
  lemma {:induction false} FixScanAgree(nodes: map<NodeId, Node>, online: set<NodeId>, ps: seq<Pin>)
    requires forall i | 0 <= i < |ps| :: ps[i].1 in nodes
    ensures FixScan(nodes, online, ps).multi <==> Disagree(online, ps)
    ensures !FixScan(nodes, online, ps).multi ==>
      && FixScan(nodes, online, ps).alerts == []
      && forall i | 0 <= i < |ps| && ps[i].1 in online && ps[i].0.Some? :: ps[i].0 == FixScan(nodes, online, ps).target
    ensures FixScan(nodes, online, ps).target.Some? ==>
      exists i | 0 <= i < |ps| && ps[i].1 in online :: ps[i].0 == FixScan(nodes, online, ps).target
    decreases |ps|
  {
    if ps != [] {
      var q := ps[..|ps| - 1];
      var e := ps[|ps| - 1];
      var n := |q|;
      FixScanAgree(nodes, online, q);
      var st := FixScan(nodes, online, q);
      var st' := FixScan(nodes, online, ps);
      assert forall i | 0 <= i < n :: q[i] == ps[i];
      if st.multi {
        var i, j :| 0 <= i < j < n && q[i].1 in online && q[j].1 in online && q[i].0.Some? && q[j].0 != q[i].0;
        assert ps[i] == q[i] && ps[j] == q[j];
      } else if e.1 !in online {
        assert !Disagree(online, ps) by {
          forall i, j | 0 <= i < j < |ps| && ps[i].1 in online && ps[j].1 in online && ps[i].0.Some?
            ensures ps[j].0 == ps[i].0
          {
            assert j < n;
          }
        }
      } else if st.target.None? {
        assert !Disagree(online, ps) by {
          forall i | 0 <= i < n && ps[i].1 in online ensures ps[i].0.None? {
            assert ps[i] == q[i];
          }
        }
        assert ps[n] == e;
      } else if e.0 != st.target {
        var i :| 0 <= i < n && q[i].1 in online && q[i].0 == st.target;
        assert ps[i] == q[i] && ps[n] == e;
      } else {
        assert !Disagree(online, ps) by {
          forall i, j | 0 <= i < j < |ps| && ps[i].1 in online && ps[j].1 in online && ps[i].0.Some?
            ensures ps[j].0 == ps[i].0
          {
            assert ps[i] == q[i];
            if j < n {
              assert ps[j] == q[j];
            }
          }
        }
        var i :| 0 <= i < n && q[i].1 in online && q[i].0 == st.target;
        assert ps[i] == q[i];
      }
    }
  }

  /** Pin `j` is the first online one disagreeing with the target chosen before it. */
  ghost predicate FirstConflict(nodes: map<NodeId, Node>, online: set<NodeId>, ps: seq<Pin>, j: int)
    requires forall i | 0 <= i < |ps| :: ps[i].1 in nodes
  {
    && 0 <= j < |ps|
    && var before := FixScan(nodes, online, ps[..j]);
       !before.multi && before.target.Some? && ps[j].1 in online && ps[j].0 != before.target
  }

  /**
   * Pin `j` is the first conflict, and the outcome follows it: for an uplink node the target is dropped and the
   * shortcut alert raised, otherwise the target chosen before it stays and nothing is raised.
   */
  ghost predicate ConflictOutcome(nodes: map<NodeId, Node>, online: set<NodeId>, ps: seq<Pin>, j: int, target: Option<int>, alerts: seq<Alert>)
    requires forall i | 0 <= i < |ps| :: ps[i].1 in nodes
  {
    && FirstConflict(nodes, online, ps, j)
    && target == (if nodes[ps[j].1].status == Uplink then None else FixScan(nodes, online, ps[..j]).target)
    && alerts == (if nodes[ps[j].1].status == Uplink then [ShortcutFixedMultiSeg] else [])
  }

  /**
   * When the scan reports a conflict, it was raised by the first online fixed node disagreeing with the
   * target chosen before it: the target is dropped and the shortcut alert raised exactly when that node is an uplink.
   */
  lemma {:induction false} FixScanConflict(nodes: map<NodeId, Node>, online: set<NodeId>, ps: seq<Pin>)
    requires forall i | 0 <= i < |ps| :: ps[i].1 in nodes
    requires FixScan(nodes, online, ps).multi
    ensures exists j :: ConflictOutcome(nodes, online, ps, j, FixScan(nodes, online, ps).target, FixScan(nodes, online, ps).alerts)
    decreases |ps|
  {
    var q := ps[..|ps| - 1];
    var n := |q|;
    FixScanAgree(nodes, online, q);
    if FixScan(nodes, online, q).multi {
      FixScanConflict(nodes, online, q);
      var j :| ConflictOutcome(nodes, online, q, j, FixScan(nodes, online, q).target, FixScan(nodes, online, q).alerts);
      assert q[..j] == ps[..j] && q[j] == ps[j];
      assert ConflictOutcome(nodes, online, ps, j, FixScan(nodes, online, ps).target, FixScan(nodes, online, ps).alerts);
    } else {
      assert ps[..n] == q;
      assert ConflictOutcome(nodes, online, ps, n, FixScan(nodes, online, ps).target, FixScan(nodes, online, ps).alerts);
    }
  }

  //---------------------------------------------------------------------------
  // Weighted vote
  //---------------------------------------------------------------------------

  /** A node's vote: 10 in manual mode, else 4 when it holds a VPN key, else 1. */
  function Contribution(n: Node): int {
    if IsManual(n) then 10 else if n.keyDir.Some? then 4 else 1
  }

  /** The weight of segment `seg`: the votes of the listed nodes allowed into it. */
  function Weight(nodes: map<NodeId, Node>, seg: int, xs: seq<NodeId>): (r: int)
    requires InTable(xs, nodes)
    ensures 0 <= r <= 10 * |xs|
    ensures r == 0 <==> forall x | x in xs :: !Eligible(nodes[x], seg)
  {
    if xs == [] then 0
    else
      var x := xs[|xs| - 1];
      assert forall y | y in xs :: y in xs[..|xs| - 1] || y == x;
      Weight(nodes, seg, xs[..|xs| - 1]) + if Eligible(nodes[x], seg) then Contribution(nodes[x]) else 0
  }

  /** The longest uptime among the listed nodes allowed into segment `seg`, 0 when there is none. */
  function MaxUptime(nodes: map<NodeId, Node>, seg: int, xs: seq<NodeId>): (r: int)
    requires InTable(xs, nodes)
    ensures 0 <= r
    ensures forall x | x in xs && Eligible(nodes[x], seg) :: nodes[x].uptime <= r
    ensures r == 0 || exists x | x in xs :: Eligible(nodes[x], seg) && nodes[x].uptime == r
  {
    if xs == [] then 0
    else
      var x := xs[|xs| - 1];
      var u := MaxUptime(nodes, seg, xs[..|xs| - 1]);
      assert forall y | y in xs :: y in xs[..|xs| - 1] || y == x;
      if Eligible(nodes[x], seg) && nodes[x].uptime > u then nodes[x].uptime else u
  }

  /** `SegWeightDict` after the first `n` segments of a desired-segment dict. */
  function WeightsUpTo(nodes: map<NodeId, Node>, g: Groups<int>, n: nat): map<int, int>
    requires GroupsOk(g, nodes) && n <= |g.order|
  {
    if n == 0 then map[]
    else WeightsUpTo(nodes, g, n - 1)[g.order[n - 1] := Weight(nodes, g.order[n - 1], g.members[g.order[n - 1]])]
  }

  /** `SegUptime` after the first `n` segments of a desired-segment dict. */
  function UptimesUpTo(nodes: map<NodeId, Node>, g: Groups<int>, n: nat): map<int, int>
    requires GroupsOk(g, nodes) && n <= |g.order|
  {
    if n == 0 then map[]
    else UptimesUpTo(nodes, g, n - 1)[g.order[n - 1] := MaxUptime(nodes, g.order[n - 1], g.members[g.order[n - 1]])]
  }

  /** `SegWeightDict` of a desired-segment dict. */
  function Weights(nodes: map<NodeId, Node>, g: Groups<int>): map<int, int>
    requires GroupsOk(g, nodes)
  {
    WeightsUpTo(nodes, g, |g.order|)
  }

  /** `SegUptime` of a desired-segment dict. */
  function Uptimes(nodes: map<NodeId, Node>, g: Groups<int>): map<int, int>
    requires GroupsOk(g, nodes)
  {
    UptimesUpTo(nodes, g, |g.order|)
  }

  /** After the first `n` segments, both dicts hold exactly those segments, with their weight and longest uptime. */
  lemma {:induction false} TalliesUpTo(nodes: map<NodeId, Node>, g: Groups<int>, n: nat)
    requires GroupsOk(g, nodes) && n <= |g.order|
    ensures forall s :: s in WeightsUpTo(nodes, g, n) <==> s in g.order[..n]
    ensures forall s :: s in UptimesUpTo(nodes, g, n) <==> s in g.order[..n]
    ensures forall s | s in WeightsUpTo(nodes, g, n) ::
      s in g.members && WeightsUpTo(nodes, g, n)[s] == Weight(nodes, s, g.members[s])
    ensures forall s | s in UptimesUpTo(nodes, g, n) ::
      s in g.members && UptimesUpTo(nodes, g, n)[s] == MaxUptime(nodes, s, g.members[s])
  {
    if n > 0 {
      TalliesUpTo(nodes, g, n - 1);
      assert g.order[..n] == g.order[..n - 1] + [g.order[n - 1]];
    }
  }

  /** The dicts of a desired-segment dict are keyed by its segments and hold their weights and longest uptimes. */
  lemma TalliesOf(nodes: map<NodeId, Node>, g: Groups<int>)
    requires GroupsOk(g, nodes)
    ensures Tally(Weights(nodes, g), Uptimes(nodes, g), g.order)
    ensures forall s | s in g.members :: Weights(nodes, g)[s] == Weight(nodes, s, g.members[s])
    ensures forall s | s in g.members :: Uptimes(nodes, g)[s] == MaxUptime(nodes, s, g.members[s])
  {
    TalliesUpTo(nodes, g, |g.order|);
    assert g.order[..|g.order|] == g.order;
  }

  /** The selection state: the best weight so far, its segment, and whether the uptime lookup failed. */
  datatype VoteState = VoteState(maxWeight: int, target: int, crashed: bool)

  /**
   * One segment of the selection: a heavier segment wins; an equally heavy one wins with a longer uptime,
   * which needs the uptime of the current target, and segment 0, the default target, may have none.
   */
  function VoteStep(w: map<int, int>, u: map<int, int>, st: VoteState, s: int): VoteState
    requires s in w && s in u
  {
    if st.crashed then st
    else if w[s] > st.maxWeight then VoteState(w[s], s, false)
    else if w[s] == st.maxWeight then
      if st.target !in u then st.(crashed := true)
      else if u[s] > u[st.target] then st.(target := s)
      else st
    else st
  }

  /** The selection over the segments in order, from weight 0 and segment 0. */
  function Vote(w: map<int, int>, u: map<int, int>, order: seq<int>): VoteState
    requires forall s | s in order :: s in w && s in u
  {
    if order == [] then VoteState(0, 0, false)
    else VoteStep(w, u, Vote(w, u, order[..|order| - 1]), order[|order| - 1])
  }

  /** The weights and uptimes of a desired-segment dict: keyed by its segments, never negative. */
  ghost predicate Tally(w: map<int, int>, u: map<int, int>, order: seq<int>) {
    && Distinct(order)
    && (forall s :: s in order <==> s in w)
    && (forall s :: s in order <==> s in u)
    && (forall s | s in w :: w[s] >= 0)
  }

  /** `(w[a], u[a])` is at most `(w[b], u[b])` in lexicographic order. */
  ghost predicate NoBetter(w: map<int, int>, u: map<int, int>, a: int, b: int)
    requires a in w && a in u && b in w && b in u
  {
    w[a] < w[b] || (w[a] == w[b] && u[a] <= u[b])
  }

  /** `(w[a], u[a])` is below `(w[b], u[b])` in lexicographic order. */
  ghost predicate Worse(w: map<int, int>, u: map<int, int>, a: int, b: int)
    requires a in w && a in u && b in w && b in u
  {
    w[a] < w[b] || (w[a] == w[b] && u[a] < u[b])
  }

  /** The target is `p[k]`: it is at least as good as every segment of `p` and better than every earlier one. */
  ghost predicate TakenAt(w: map<int, int>, u: map<int, int>, p: seq<int>, st: VoteState, k: int)
    requires forall s | s in p :: s in w && s in u
  {
    && 0 <= k < |p| && p[k] == st.target && st.maxWeight == w[st.target]
    && (forall s | s in p :: NoBetter(w, u, s, st.target))
    && (forall i | 0 <= i < k :: Worse(w, u, p[i], st.target))
  }

  /** The default segment 0 is still the target, and every segment of `p` has weight 0 and no longer uptime than it. */
  ghost predicate StillDefault(w: map<int, int>, u: map<int, int>, p: seq<int>, st: VoteState)
    requires forall s | s in p :: s in w && s in u
  {
    && st.target == 0 && st.maxWeight == 0
    && (p != [] ==> 0 in w && 0 in u)
    && forall s | s in p :: w[s] == 0 && 0 in u && u[s] <= u[0]
  }

  /** What holds after the segments `p` when nothing failed. */
  ghost predicate VoteInv(w: map<int, int>, u: map<int, int>, p: seq<int>, st: VoteState)
    requires forall s | s in p :: s in w && s in u
  {
    (exists k :: TakenAt(w, u, p, st, k)) || StillDefault(w, u, p, st)
  }

  /** A segment better than every segment before it becomes the target. */
  lemma TakeStep(w: map<int, int>, u: map<int, int>, p: seq<int>, s: int, st': VoteState)
    requires forall x | x in p + [s] :: x in w && x in u
    requires st'.target == s && st'.maxWeight == w[s]
    requires forall x | x in p :: Worse(w, u, x, s)
    ensures TakenAt(w, u, p + [s], st', |p|)
  {
    var p' := p + [s];
    forall i | 0 <= i < |p| ensures Worse(w, u, p'[i], s) {
      assert p'[i] == p[i] && p[i] in p;
    }
    forall x | x in p' ensures NoBetter(w, u, x, s) {
      if x != s {
        assert x in p;
      }
    }
  }

  /** A segment no better than the target leaves the target in place. */
  lemma KeepStep(w: map<int, int>, u: map<int, int>, p: seq<int>, s: int, st: VoteState)
    requires forall x | x in p + [s] :: x in w && x in u
    requires VoteInv(w, u, p, st) && (p == [] ==> 0 in w && 0 in u)
    requires st.target in u && w[s] >= 0
    requires w[s] <= st.maxWeight && (w[s] == st.maxWeight ==> u[s] <= u[st.target])
    ensures VoteInv(w, u, p + [s], st)
  {
    var p' := p + [s];
    if k :| TakenAt(w, u, p, st, k) {
      assert p'[k] == st.target;
      forall i | 0 <= i < k ensures Worse(w, u, p'[i], st.target) {
        assert p'[i] == p[i];
      }
      assert TakenAt(w, u, p', st, k);
    } else {
      assert StillDefault(w, u, p, st);
      forall x | x in p' ensures w[x] == 0 && 0 in u && u[x] <= u[0] {
        if x != s {
          assert x in p;
        }
      }
      assert StillDefault(w, u, p', st);
    }
  }

  /** One step of the selection keeps `VoteInv`, and fails exactly when the default segment 0 has no uptime. */
  lemma VoteStepInv(w: map<int, int>, u: map<int, int>, order: seq<int>, n: nat)
    requires Tally(w, u, order) && n < |order|
    requires !Vote(w, u, order[..n]).crashed && VoteInv(w, u, order[..n], Vote(w, u, order[..n]))
    ensures Vote(w, u, order[..n + 1]).crashed <==> n == 0 && w[order[0]] == 0 && 0 !in u
    ensures !Vote(w, u, order[..n + 1]).crashed ==> VoteInv(w, u, order[..n + 1], Vote(w, u, order[..n + 1]))
  {
    var p := order[..n];
    var s := order[n];
    assert order[..n + 1] == p + [s];
    assert (p + [s])[..n] == p;
    var st := Vote(w, u, p);
    var st' := Vote(w, u, p + [s]);
    assert st' == VoteStep(w, u, st, s);
    assert forall x | x in p :: x in order;
    if n == 0 {
      assert p == [];
    } else {
      assert p[0] in order;
    }
    if st' == st {
      KeepStep(w, u, p, s, st);
    } else if st'.crashed {
    } else {
      assert st'.target == s && st'.maxWeight == w[s];
      if k :| TakenAt(w, u, p, st, k) {
        forall x | x in p ensures Worse(w, u, x, s) {
          assert NoBetter(w, u, x, st.target);
        }
      }
      TakeStep(w, u, p, s, st');
    }
  }

  /** After the first `n` segments: the selection fails exactly when the first segment has weight 0 and segment 0 none, else `VoteInv` holds. */
  lemma {:induction false} VotePrefix(w: map<int, int>, u: map<int, int>, order: seq<int>, n: nat)
    requires Tally(w, u, order) && n <= |order|
    ensures Vote(w, u, order[..n]).crashed <==> n > 0 && w[order[0]] == 0 && 0 !in u
    ensures !Vote(w, u, order[..n]).crashed ==> VoteInv(w, u, order[..n], Vote(w, u, order[..n]))
  {
    if n == 0 {
      assert order[..0] == [];
      assert StillDefault(w, u, order[..0], Vote(w, u, order[..0]));
    } else {
      VotePrefix(w, u, order, n - 1);
      if Vote(w, u, order[..n - 1]).crashed {
        assert order[..n][..n - 1] == order[..n - 1];
      } else {
        VoteStepInv(w, u, order, n - 1);
      }
    }
  }

  /**
   * The selection over a desired-segment dict. It fails exactly when the first segment has weight 0 and
   * segment 0 is not among the segments. Otherwise, if there is any segment, the target is one of them with the largest
   * weight, and with the longest uptime among those; every segment before the target is strictly worse, unless
   * the target is segment 0 itself.
   */
  lemma VoteResult(w: map<int, int>, u: map<int, int>, order: seq<int>)
    requires Tally(w, u, order)
    ensures Vote(w, u, order).crashed <==> order != [] && w[order[0]] == 0 && 0 !in u
    ensures order == [] ==> Vote(w, u, order).target == 0
    ensures !Vote(w, u, order).crashed && order != [] ==>
      var t := Vote(w, u, order).target;
      && t in order
      && forall s | s in order :: w[s] < w[t] || (w[s] == w[t] && u[s] <= u[t])
    ensures !Vote(w, u, order).crashed && Vote(w, u, order).target != 0 ==>
      var t := Vote(w, u, order).target;
      forall i, j | 0 <= i < j < |order| && order[j] == t :: w[order[i]] < w[t] || (w[order[i]] == w[t] && u[order[i]] < u[t])
  {
    VotePrefix(w, u, order, |order|);
    assert order[..|order|] == order;
    var st := Vote(w, u, order);
    if !st.crashed {
      if k :| TakenAt(w, u, order, st, k) {
        forall i, j | 0 <= i < j < |order| && order[j] == st.target
          ensures Worse(w, u, order[i], st.target)
        {
          assert j == k;
        }
        forall s | s in order ensures NoBetter(w, u, s, st.target) {
        }
      } else if order != [] {
        assert StillDefault(w, u, order, st);
        assert 0 in order;
      }
    }
  }

  /** Once the uptime lookup has failed, later segments change nothing. */
  lemma {:induction false} VoteStaysCrashed(w: map<int, int>, u: map<int, int>, order: seq<int>, n: nat)
    requires forall s | s in order :: s in w && s in u
    requires n <= |order| && Vote(w, u, order[..n]).crashed
    ensures Vote(w, u, order) == Vote(w, u, order[..n])
    decreases |order| - n
  {
    if n == |order| {
      assert order[..n] == order;
    } else {
      assert order[..n + 1][..n] == order[..n];
      VoteStaysCrashed(w, u, order, n + 1);
    }
  }

  //---------------------------------------------------------------------------
  // The resolver
  //---------------------------------------------------------------------------

  /** The resolver's answer: `ok` is false when the vote fails on the uptime lookup; the target; the alerts raised. */
  datatype Decision = Decision(ok: bool, target: Option<int>, alerts: seq<Alert>)

  /** The resolver on a desired-segment dict (keyed by `DestSeg`) and a fixed-segment dict (keyed by `Segment`). */
  function Resolve(nodes: map<NodeId, Node>, online: set<NodeId>, desired: Groups<int>, fixed: Groups<Option<int>>): Decision
    requires GroupsOk(desired, nodes) && GroupsOk(fixed, nodes)
  {
    if fixed.order != [] then
      PinsInTable(nodes, fixed, fixed.order);
      var st := FixScan(nodes, online, Pins(fixed, fixed.order));
      Decision(true, st.target, st.alerts + if st.multi then [MultiFixedSegments] else [])
    else
      TalliesOf(nodes, desired);
      var v := Vote(Weights(nodes, desired), Uptimes(nodes, desired), desired.order);
      Decision(!v.crashed, Some(v.target), [])
  }

  /**
   * With fixed nodes there is no vote and no failure. The multiple-fixed-segments alert is raised exactly when two
   * online fixed nodes disagree. Without it, every online fixed node naming a segment names the result and no other
   * alert is raised. A result that names a segment is the segment of an online fixed node.
   */
  lemma ResolveFixed(nodes: map<NodeId, Node>, online: set<NodeId>, desired: Groups<int>, fixed: Groups<Option<int>>)
    requires GroupsOk(desired, nodes) && GroupsOk(fixed, nodes) && fixed.order != []
    ensures
      var d := Resolve(nodes, online, desired, fixed);
      var ps := Pins(fixed, fixed.order);
      && d.ok
      && (MultiFixedSegments in d.alerts <==> Disagree(online, ps))
      && (!Disagree(online, ps) ==>
            d.alerts == [] && forall i | 0 <= i < |ps| && ps[i].1 in online && ps[i].0.Some? :: ps[i].0 == d.target)
      && (d.target.Some? ==> exists i | 0 <= i < |ps| && ps[i].1 in online :: ps[i].0 == d.target)
  {
    PinsInTable(nodes, fixed, fixed.order);
    var ps := Pins(fixed, fixed.order);
    FixScanAgree(nodes, online, ps);
    var st := FixScan(nodes, online, ps);
    if st.multi {
      FixScanConflict(nodes, online, ps);
    }
  }

  /**
   * When two online fixed nodes disagree, the first one that disagrees with the target chosen before it decides:
   * if it is an uplink node, the result is `None` after the shortcut alert; otherwise the earlier target stays.
   * The multiple-fixed-segments alert follows in both cases.
   */
  lemma ResolveConflict(nodes: map<NodeId, Node>, online: set<NodeId>, desired: Groups<int>, fixed: Groups<Option<int>>)
    requires GroupsOk(desired, nodes) && GroupsOk(fixed, nodes) && fixed.order != []
    requires Disagree(online, Pins(fixed, fixed.order))
    ensures forall i | 0 <= i < |Pins(fixed, fixed.order)| :: Pins(fixed, fixed.order)[i].1 in nodes
    ensures exists j, scanAlerts ::
      && ConflictOutcome(nodes, online, Pins(fixed, fixed.order), j, Resolve(nodes, online, desired, fixed).target, scanAlerts)
      && Resolve(nodes, online, desired, fixed).alerts == scanAlerts + [MultiFixedSegments]
  {
    PinsInTable(nodes, fixed, fixed.order);
    var ps := Pins(fixed, fixed.order);
    FixScanAgree(nodes, online, ps);
    FixScanConflict(nodes, online, ps);
    var st := FixScan(nodes, online, ps);
    var d := Resolve(nodes, online, desired, fixed);
    assert d == Decision(true, st.target, st.alerts + [MultiFixedSegments]);
    var j :| ConflictOutcome(nodes, online, ps, j, st.target, st.alerts);
  }

  /**
   * Without fixed nodes the result is a segment and no alert is raised. The vote fails exactly when the first
   * desired segment has weight 0 and 0 is not a desired segment. Otherwise the result is 0 when nothing is desired,
   * and else a desired segment of the largest weight and, among those, of the longest uptime; when it is not 0,
   * every segment listed before it is strictly worse.
   */
  lemma ResolveVote(nodes: map<NodeId, Node>, online: set<NodeId>, desired: Groups<int>, fixed: Groups<Option<int>>)
    requires GroupsOk(desired, nodes) && GroupsOk(fixed, nodes) && fixed.order == []
    ensures
      var d := Resolve(nodes, online, desired, fixed);
      var order, m := desired.order, desired.members;
      && d.alerts == [] && d.target.Some?
      && (!d.ok <==> order != [] && Weight(nodes, order[0], m[order[0]]) == 0 && 0 !in m)
      && (order == [] ==> d.target == Some(0))
      && (d.ok && order != [] ==>
            var t := d.target.value;
            && t in m
            && forall s | s in m ::
                 || Weight(nodes, s, m[s]) < Weight(nodes, t, m[t])
                 || (Weight(nodes, s, m[s]) == Weight(nodes, t, m[t]) && MaxUptime(nodes, s, m[s]) <= MaxUptime(nodes, t, m[t])))
      && (d.ok && d.target != Some(0) ==>
            var t := d.target.value;
            forall i, j | 0 <= i < j < |order| && order[j] == t ::
              var s := order[i];
              || Weight(nodes, s, m[s]) < Weight(nodes, t, m[t])
              || (Weight(nodes, s, m[s]) == Weight(nodes, t, m[t]) && MaxUptime(nodes, s, m[s]) < MaxUptime(nodes, t, m[t])))
  {
    TalliesOf(nodes, desired);
    VoteResult(Weights(nodes, desired), Uptimes(nodes, desired), desired.order);
  }

  /** Scanning one more pin is one more step. */
  lemma FixScanSnoc(nodes: map<NodeId, Node>, online: set<NodeId>, a: seq<Pin>, e: Pin)
    requires forall i | 0 <= i < |a| :: a[i].1 in nodes
    requires e.1 in nodes
    ensures forall i | 0 <= i < |a + [e]| :: (a + [e])[i].1 in nodes
    ensures FixScan(nodes, online, a + [e]) == FixStep(nodes, online, FixScan(nodes, online, a), e)
  {
    assert (a + [e])[..|a|] == a;
  }

  /** The scan of one group of the fixed-segment dict, node by node, continuing from state `st`. */
  method ScanGroup(nodes: map<NodeId, Node>, online: set<NodeId>, done: seq<Pin>, seg: Option<int>, xs: seq<NodeId>, st: FixState)
    returns (target: Option<int>, multi: bool, alerts: seq<Alert>)
    requires forall i | 0 <= i < |done| :: done[i].1 in nodes
    requires InTable(xs, nodes) && st == FixScan(nodes, online, done)
    ensures forall i | 0 <= i < |done + Pairs(seg, xs)| :: (done + Pairs(seg, xs))[i].1 in nodes
    ensures FixState(target, multi, alerts) == FixScan(nodes, online, done + Pairs(seg, xs))
  {
    target, multi, alerts := st.target, st.multi, st.alerts;
    var k := 0;
    assert done + Pairs(seg, xs[..k]) == done;
    while k < |xs|
      invariant 0 <= k <= |xs|
      invariant forall i | 0 <= i < |done + Pairs(seg, xs[..k])| :: (done + Pairs(seg, xs[..k]))[i].1 in nodes
      invariant FixState(target, multi, alerts) == FixScan(nodes, online, done + Pairs(seg, xs[..k]))
    {
      var x := xs[k];
      assert done + Pairs(seg, xs[..k + 1]) == (done + Pairs(seg, xs[..k])) + [(seg, x)];
      FixScanSnoc(nodes, online, done + Pairs(seg, xs[..k]), (seg, x));
      if x in online && !multi {
        if target.None? {
          target := seg;
        } else if seg != target {
          multi := true;
          if nodes[x].status == Uplink {
            alerts := alerts + [ShortcutFixedMultiSeg];
            target := None;
          }
        }
      }
      k := k + 1;
    }
    assert xs[..k] == xs;
  }

  /** The scan of the fixed-segment dict, group by group. */
  method ScanFixed(nodes: map<NodeId, Node>, online: set<NodeId>, fixed: Groups<Option<int>>)
    returns (target: Option<int>, multi: bool, alerts: seq<Alert>)
    requires GroupsOk(fixed, nodes)
    ensures forall i | 0 <= i < |Pins(fixed, fixed.order)| :: Pins(fixed, fixed.order)[i].1 in nodes
    ensures FixState(target, multi, alerts) == FixScan(nodes, online, Pins(fixed, fixed.order))
  {
    target, multi, alerts := None, false, [];
    PinsInTable(nodes, fixed, fixed.order);
    var g := 0;
    assert fixed.order[..0] == [];
    while g < |fixed.order|
      invariant 0 <= g <= |fixed.order|
      invariant forall i | 0 <= i < |Pins(fixed, fixed.order[..g])| :: Pins(fixed, fixed.order[..g])[i].1 in nodes
      invariant FixState(target, multi, alerts) == FixScan(nodes, online, Pins(fixed, fixed.order[..g]))
    {
      var seg := fixed.order[g];
      assert fixed.order[..g + 1][..g] == fixed.order[..g];
      target, multi, alerts := ScanGroup(nodes, online, Pins(fixed, fixed.order[..g]), seg, fixed.members[seg], FixState(target, multi, alerts));
      g := g + 1;
    }
    assert fixed.order[..g] == fixed.order;
  }

  /** The weight and the longest uptime of one desired segment, node by node. */
  method TallySegment(nodes: map<NodeId, Node>, seg: int, xs: seq<NodeId>) returns (weight: int, up: int)
    requires InTable(xs, nodes)
    ensures weight == Weight(nodes, seg, xs) && up == MaxUptime(nodes, seg, xs)
  {
    weight, up := 0, 0;
    var k := 0;
    while k < |xs|
      invariant 0 <= k <= |xs|
      invariant weight == Weight(nodes, seg, xs[..k]) && up == MaxUptime(nodes, seg, xs[..k])
    {
      assert xs[..k + 1][..k] == xs[..k];
      var n := nodes[xs[k]];
      if seg <= 8 || n.gluonType >= NodeTypeDnsSegAssign {
        if n.uptime > up {
          up := n.uptime;
        }
        if IsManual(n) {
          weight := weight + 10;
        } else if n.keyDir.Some? {
          weight := weight + 4;
        } else {
          weight := weight + 1;
        }
      }
      k := k + 1;
    }
    assert xs[..k] == xs;
  }

  /** `SegWeightDict` and `SegUptime`, segment by segment and node by node. */
  method TallyVotes(nodes: map<NodeId, Node>, desired: Groups<int>) returns (w: map<int, int>, u: map<int, int>)
    requires GroupsOk(desired, nodes)
    ensures w == Weights(nodes, desired) && u == Uptimes(nodes, desired)
  {
    w, u := map[], map[];
    var g := 0;
    while g < |desired.order|
      invariant 0 <= g <= |desired.order|
      invariant w == WeightsUpTo(nodes, desired, g) && u == UptimesUpTo(nodes, desired, g)
    {
      var seg := desired.order[g];
      var weight, up := TallySegment(nodes, seg, desired.members[seg]);
      w, u := w[seg := weight], u[seg := up];
      g := g + 1;
    }
  }

  /** The selection loop; `ok` is false when it fails on the uptime lookup of the default segment 0. */
  method SelectSegment(w: map<int, int>, u: map<int, int>, order: seq<int>) returns (ok: bool, target: int)
    requires forall s | s in order :: s in w && s in u
    ensures ok == !Vote(w, u, order).crashed && target == Vote(w, u, order).target
  {
    var maxWeight := 0;
    ok, target := true, 0;
    var i := 0;
    while i < |order|
      invariant 0 <= i <= |order|
      invariant VoteState(maxWeight, target, false) == Vote(w, u, order[..i])
    {
      var s := order[i];
      assert order[..i + 1][..i] == order[..i];
      if w[s] > maxWeight {
        maxWeight, target := w[s], s;
      } else if w[s] == maxWeight {
        if target !in u {
          VoteStaysCrashed(w, u, order, i + 1);
          ok := false;
          return;
        }
        if u[s] > u[target] {
          target := s;
        }
      }
      i := i + 1;
    }
    assert order[..i] == order;
  }

  /** The resolver: fixed nodes first, else the vote; proved to compute `Resolve`. */
  method GetCloudSegment(nodes: map<NodeId, Node>, online: set<NodeId>, desired: Groups<int>, fixed: Groups<Option<int>>)
    returns (ok: bool, target: Option<int>, alerts: seq<Alert>)
    requires GroupsOk(desired, nodes) && GroupsOk(fixed, nodes)
    ensures Decision(ok, target, alerts) == Resolve(nodes, online, desired, fixed)
  {
    if |fixed.order| > 0 {
      var multi;
      target, multi, alerts := ScanFixed(nodes, online, fixed);
      if multi {
        alerts := alerts + [MultiFixedSegments];
      }
      ok := true;
    } else {
      var w, u := TallyVotes(nodes, desired);
      TalliesOf(nodes, desired);
      var t;
      ok, t := SelectSegment(w, u, desired.order);
      target, alerts := Some(t), [];
    }
  }
}
