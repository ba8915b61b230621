/**
 * What the consistency pass over the node table computes: the per-node repair, the segment statistics
 * of the online nodes and the peer names of the gateway key registry, each as a function of the table.
 */
module Consistency {
  import opened Common
  import opened MeshTypes
  import opened CloudSpec
  import opened PyStr

  /**
   * The repair applied to every seen node: an uplink without key directory is demoted to passive,
   * and a missing segment is taken from the destination segment, else from the key directory.
   */
  function Repair(n: Node): (r: Node)
    ensures r.(status := n.status, segment := n.segment) == n
    ensures n.status == Unknown ==> r == n
    ensures r.status == Uplink ==> r.keyDir.Some?
    ensures n.segment.Some? ==> r.segment == n.segment
    ensures n.status != Unknown ==> (r.segment.None? <==> n.segment.None? && n.destSeg.None? && n.keyDir.None?)
    ensures n.status != Unknown && n.segment.None? && n.destSeg.Some? ==> r.segment == n.destSeg
    ensures n.status != Unknown && n.segment.None? && n.destSeg.None? ==> r.segment == n.keyDir
    ensures n.status != Unknown ==> r.status == if n.status == Uplink && n.keyDir.None? then Passive else n.status
  {
    if n.status == Unknown then n
    else
      var status := if n.status == Uplink && n.keyDir.None? then Passive else n.status;
      var segment :=
        if n.segment.None? && n.destSeg.Some? then n.destSeg
        else if n.segment.None? && n.keyDir.Some? then n.keyDir
        else n.segment;
      n.(status := status, segment := segment)
  }

  /** A second pass repairs nothing more. */
  lemma RepairIdempotent(n: Node)
    ensures Repair(Repair(n)) == Repair(n)
  {
  }

  /** The table after the repair of every node. */
  function Repaired(nodes: map<NodeId, Node>): (r: map<NodeId, Node>)
    ensures r.Keys == nodes.Keys
  {
    map x | x in nodes :: Repair(nodes[x])
  }

  /** The first `i` listed entries of `nodes` are repaired, the others are as in `nodes0`. */
  ghost predicate RepairedUpTo(ids: seq<NodeId>, nodes0: map<NodeId, Node>, nodes: map<NodeId, Node>, i: int) {
    && nodes.Keys == nodes0.Keys
    && forall j | 0 <= j < |ids| && ids[j] in nodes0 :: nodes[ids[j]] == if j < i then Repair(nodes0[ids[j]]) else nodes0[ids[j]]
  }

  /** Repairing the next listed entry extends the repaired prefix by one. */
  lemma RepairedUpToStep(ids: seq<NodeId>, nodes0: map<NodeId, Node>, nodes: map<NodeId, Node>, i: int)
    requires Distinct(ids) && 0 <= i < |ids| && ids[i] in nodes0
    requires RepairedUpTo(ids, nodes0, nodes, i)
    ensures nodes[ids[i]] == nodes0[ids[i]]
    ensures RepairedUpTo(ids, nodes0, nodes[ids[i] := Repair(nodes[ids[i]])], i + 1)
  {
    var x := ids[i];
    var next := nodes[x := Repair(nodes[x])];
    forall j | 0 <= j < |ids| && ids[j] in nodes0
      ensures next[ids[j]] == if j < i + 1 then Repair(nodes0[ids[j]]) else nodes0[ids[j]]
    {
      if j != i {
        assert ids[j] != x;
      }
    }
  }

  /** A table whose every listed entry has been repaired is the repaired table. */
  lemma AllRepaired(ids: seq<NodeId>, nodes0: map<NodeId, Node>, nodes: map<NodeId, Node>)
    requires forall n :: n in ids <==> n in nodes0
    requires RepairedUpTo(ids, nodes0, nodes, |ids|)
    ensures nodes == Repaired(nodes0)
  {
    forall x | x in nodes
      ensures nodes[x] == Repaired(nodes0)[x]
    {
      var j :| 0 <= j < |ids| && ids[j] == x;
    }
  }

  // ---------------------------------------------------------------- segment statistics

  /** A node enters the statistics: seen, online, and in a segment the gateways know. */
  predicate Counted(n: Node, x: NodeId, online: set<NodeId>, known: set<int>) {
    n.status != Unknown && x in online && n.segment.Some? && n.segment.value in known
  }

  /** One node's contribution to its segment's counters, creating them at zero first. */
  function AddStat(stats: map<int, SegStat>, n: Node): map<int, SegStat>
    requires n.segment.Some?
  {
    var seg := n.segment.value;
    var st := if seg in stats then stats[seg] else SegStat(0, 0, 0);
    stats[seg := SegStat(st.nodes + 1, st.clients + n.clients, st.uplinks + if n.status == Uplink then 1 else 0)]
  }

  /** The statistics accumulated over the ids `s`, in order. */
  function SegStats(nodes: map<NodeId, Node>, s: seq<NodeId>, online: set<NodeId>, known: set<int>): map<int, SegStat>
    requires forall x | x in s :: x in nodes
  {
    if s == [] then map[]
    else
      var x := s[|s| - 1];
      var stats := SegStats(nodes, s[..|s| - 1], online, known);
      if Counted(nodes[x], x, online, known) then AddStat(stats, nodes[x]) else stats
  }

  /** Visiting one more listed id adds that node's contribution. */
  lemma SegStatsNext(nodes: map<NodeId, Node>, ids: seq<NodeId>, i: int, online: set<NodeId>, known: set<int>)
    requires forall x | x in ids :: x in nodes
    requires 0 <= i < |ids|
    ensures SegStats(nodes, ids[..i + 1], online, known)
      == if Counted(nodes[ids[i]], ids[i], online, known) then AddStat(SegStats(nodes, ids[..i], online, known), nodes[ids[i]])
         else SegStats(nodes, ids[..i], online, known)
  {
    assert ids[..i + 1][..i] == ids[..i];
  }

  /** The counted ids of `s` that are in segment `seg`, in order. */
  function InSegment(nodes: map<NodeId, Node>, s: seq<NodeId>, online: set<NodeId>, known: set<int>, seg: int): (r: seq<NodeId>)
    requires forall x | x in s :: x in nodes
    ensures forall x | x in r :: x in s && Counted(nodes[x], x, online, known) && nodes[x].segment == Some(seg)
  {
    if s == [] then []
    else
      var x := s[|s| - 1];
      var rest := InSegment(nodes, s[..|s| - 1], online, known, seg);
      if Counted(nodes[x], x, online, known) && nodes[x].segment == Some(seg) then rest + [x] else rest
  }

  /** How many ids of `s` are uplinks. */
  function CountUplinks(nodes: map<NodeId, Node>, s: seq<NodeId>): (r: nat)
    requires forall x | x in s :: x in nodes
    ensures r <= |s|
  {
    if s == [] then 0
    else CountUplinks(nodes, s[..|s| - 1]) + if nodes[s[|s| - 1]].status == Uplink then 1 else 0
  }

  /**
   * The statistics segment by segment: a segment has counters exactly when some counted node is in it,
   * and then they hold that node count, the sum of those nodes' clients and the number of uplinks among them.
   */
  lemma {:induction false} SegStatsBySegment(nodes: map<NodeId, Node>, s: seq<NodeId>, online: set<NodeId>, known: set<int>, seg: int)
    requires forall x | x in s :: x in nodes
    ensures seg in SegStats(nodes, s, online, known) <==> InSegment(nodes, s, online, known, seg) != []
    ensures seg in SegStats(nodes, s, online, known) ==>
      var members := InSegment(nodes, s, online, known, seg);
      && seg in known
      && SegStats(nodes, s, online, known)[seg] == SegStat(|members|, SumClients(nodes, members), CountUplinks(nodes, members))
    decreases |s|
  {
    if s != [] {
      var p := s[..|s| - 1];
      var x := s[|s| - 1];
      SegStatsBySegment(nodes, p, online, known, seg);
      var rest := InSegment(nodes, p, online, known, seg);
      var st := SegStats(nodes, p, online, known);
      var counted := Counted(nodes[x], x, online, known);
      assert SegStats(nodes, s, online, known) == if counted then AddStat(st, nodes[x]) else st;
      if counted && nodes[x].segment == Some(seg) {
        SegStatsJoin(nodes, rest, x, st, seg);
      } else {
        var members := InSegment(nodes, s, online, known, seg);
        assert members == rest;
        if counted {
          assert seg in AddStat(st, nodes[x]) <==> seg in st;
          assert seg in st ==> AddStat(st, nodes[x])[seg] == st[seg];
        }
        if rest != [] {
          var y := rest[0];
          assert Counted(nodes[y], y, online, known) && nodes[y].segment == Some(seg);
        }
      }
    }
  }

  /** The counters of a segment after one more node of it joins. */
  lemma SegStatsJoin(nodes: map<NodeId, Node>, rest: seq<NodeId>, x: NodeId, st: map<int, SegStat>, seg: int)
    requires forall y | y in rest :: y in nodes
    requires x in nodes && nodes[x].segment == Some(seg)
    requires seg in st <==> rest != []
    requires seg in st ==> st[seg] == SegStat(|rest|, SumClients(nodes, rest), CountUplinks(nodes, rest))
    ensures seg in AddStat(st, nodes[x])
    ensures AddStat(st, nodes[x])[seg] == SegStat(|rest + [x]|, SumClients(nodes, rest + [x]), CountUplinks(nodes, rest + [x]))
  {
    var members := rest + [x];
    assert members[..|members| - 1] == rest;
    if rest == [] {
      assert SumClients(nodes, rest) == 0;
    }
  }

  // ---------------------------------------------------------------- peer names

  /** `s.strip().lower()`: the form in which a node's hostname and its key's peer name are compared. */
  function Norm(s: string): string {
    Lower(Strip(s))
  }

  /** The normal form is no longer than the string and holds no upper-case letter. */
  lemma NormLower(s: string)
    ensures |Norm(s)| <= |s|
    ensures forall k | 0 <= k < |Norm(s)| :: !('A' <= Norm(s)[k] <= 'Z')
  {
    var t := Strip(s);
    assert |t| <= |s|;
    LowerSpec(t);
  }

  /** The normal form is blind to leading whitespace. */
  lemma NormLeading(s: string)
    ensures Norm([' '] + s) == Norm(s) && Norm(StripLeft(s)) == Norm(s)
  {
    var s' := [' '] + s;
    assert s'[1..] == s;
    assert StripLeft(s') == StripLeft(s);
    var r := StripLeft(s);
    assert StripLeft(r) == r;
  }

  /** A node whose key's peer name is compared: seen, online, with a key file. */
  predicate UsesKey(n: Node, x: NodeId, online: set<NodeId>) {
    n.status != Unknown && x in online && n.keyFile != ""
  }

  /**
   * The peer names after visiting the ids `s` in order: a key file's peer name is overwritten with the
   * node's hostname when the two differ after normalisation. `None` when a node's key file is not
   * in the registry (the lookup fails).
   */
  function PeerUpdate(nodes: map<NodeId, Node>, s: seq<NodeId>, online: set<NodeId>, peers: map<string, string>): Option<map<string, string>>
    requires forall x | x in s :: x in nodes
  {
    if s == [] then Some(peers)
    else
      match PeerUpdate(nodes, s[..|s| - 1], online, peers)
      case None => None
      case Some(p) =>
        var x := s[|s| - 1];
        if UsesKey(nodes[x], x, online) then PeerStep(p, nodes[x]) else Some(p)
  }

  /** One node's comparison of its hostname with its key file's peer name. */
  function PeerStep(p: map<string, string>, n: Node): Option<map<string, string>> {
    if n.keyFile !in p then None
    else if Norm(n.name) != Norm(p[n.keyFile]) then Some(p[n.keyFile := n.name])
    else Some(p)
  }

  /** Visiting one more listed id performs that node's comparison. */
  lemma PeerUpdateNext(nodes: map<NodeId, Node>, ids: seq<NodeId>, i: int, online: set<NodeId>, peers: map<string, string>)
    requires forall x | x in ids :: x in nodes
    requires 0 <= i < |ids|
    requires PeerUpdate(nodes, ids[..i], online, peers).Some?
    ensures PeerUpdate(nodes, ids[..i + 1], online, peers)
      == var p := PeerUpdate(nodes, ids[..i], online, peers).value;
         if UsesKey(nodes[ids[i]], ids[i], online) then PeerStep(p, nodes[ids[i]]) else Some(p)
  {
    assert ids[..i + 1][..i] == ids[..i];
  }

  /** The pass only overwrites peer names: the registry keeps its key files. */
  lemma {:induction false} PeerUpdateKeys(nodes: map<NodeId, Node>, s: seq<NodeId>, online: set<NodeId>, peers: map<string, string>)
    requires forall x | x in s :: x in nodes
    ensures PeerUpdate(nodes, s, online, peers).Some? ==> PeerUpdate(nodes, s, online, peers).value.Keys == peers.Keys
    decreases |s|
  {
    if s != [] {
      PeerUpdateKeys(nodes, s[..|s| - 1], online, peers);
    }
  }

  /** No node of `s` compares its hostname against key file `k`. */
  ghost predicate KeyUnused(nodes: map<NodeId, Node>, s: seq<NodeId>, online: set<NodeId>, k: string)
    requires forall x | x in s :: x in nodes
  {
    forall i | 0 <= i < |s| && UsesKey(nodes[s[i]], s[i], online) :: nodes[s[i]].keyFile != k
  }

  /** `s[i]` is the last node of `s` that compares against its key file. */
  ghost predicate LastUser(nodes: map<NodeId, Node>, s: seq<NodeId>, online: set<NodeId>, i: int)
    requires forall x | x in s :: x in nodes
  {
    && 0 <= i < |s| && UsesKey(nodes[s[i]], s[i], online)
    && forall j | i < j < |s| && UsesKey(nodes[s[j]], s[j], online) :: nodes[s[j]].keyFile != nodes[s[i]].keyFile
  }

  /** Every key file a node compares against is in the registry. */
  ghost predicate KeysRegistered(nodes: map<NodeId, Node>, s: seq<NodeId>, online: set<NodeId>, peers: map<string, string>)
    requires forall x | x in s :: x in nodes
  {
    forall i | 0 <= i < |s| && UsesKey(nodes[s[i]], s[i], online) :: nodes[s[i]].keyFile in peers
  }

  /** One compared key file missing from the registry is enough to fail the pass. */
  lemma MissingKey(nodes: map<NodeId, Node>, s: seq<NodeId>, online: set<NodeId>, peers: map<string, string>, i: int)
    requires forall x | x in s :: x in nodes
    requires 0 <= i < |s| && UsesKey(nodes[s[i]], s[i], online) && nodes[s[i]].keyFile !in peers
    ensures !KeysRegistered(nodes, s, online, peers)
  {
  }

  /** The peer-name pass fails exactly when some compared key file is missing from the registry. */
  lemma {:induction false} PeerUpdateFails(nodes: map<NodeId, Node>, s: seq<NodeId>, online: set<NodeId>, peers: map<string, string>)
    requires forall x | x in s :: x in nodes
    ensures PeerUpdate(nodes, s, online, peers).Some? <==> KeysRegistered(nodes, s, online, peers)
    decreases |s|
  {
    if s != [] {
      var q := s[..|s| - 1];
      var x := s[|s| - 1];
      PeerUpdateFails(nodes, q, online, peers);
      PeerUpdateKeys(nodes, q, online, peers);
      if KeysRegistered(nodes, s, online, peers) {
        forall i | 0 <= i < |q| && UsesKey(nodes[q[i]], q[i], online)
          ensures nodes[q[i]].keyFile in peers
        {
          assert q[i] == s[i];
        }
      } else if PeerUpdate(nodes, q, online, peers).Some? {
        forall i | 0 <= i < |q| && UsesKey(nodes[s[i]], s[i], online)
          ensures nodes[s[i]].keyFile in peers
        {
          assert q[i] == s[i];
        }
        assert UsesKey(nodes[x], x, online) && nodes[x].keyFile !in peers;
      }
    }
  }

  /** A key file no node compares against keeps its peer name. */
  lemma {:induction false} PeerUpdateKeeps(nodes: map<NodeId, Node>, s: seq<NodeId>, online: set<NodeId>, peers: map<string, string>, k: string)
    requires forall x | x in s :: x in nodes
    requires k in peers && KeyUnused(nodes, s, online, k)
    ensures PeerUpdate(nodes, s, online, peers).Some? ==>
      k in PeerUpdate(nodes, s, online, peers).value && PeerUpdate(nodes, s, online, peers).value[k] == peers[k]
    decreases |s|
  {
    if s != [] {
      var q := s[..|s| - 1];
      var x := s[|s| - 1];
      assert KeyUnused(nodes, q, online, k) by {
        forall i | 0 <= i < |q| && UsesKey(nodes[q[i]], q[i], online)
          ensures nodes[q[i]].keyFile != k
        {
          assert q[i] == s[i];
        }
      }
      PeerUpdateKeeps(nodes, q, online, peers, k);
      var r := PeerUpdate(nodes, q, online, peers);
      if r.Some? {
        var p := r.value;
        assert PeerUpdate(nodes, s, online, peers) == if UsesKey(nodes[x], x, online) then PeerStep(p, nodes[x]) else Some(p);
        if UsesKey(nodes[x], x, online) && PeerStep(p, nodes[x]).Some? {
          assert nodes[s[|s| - 1]].keyFile != k;
          PeerStepOther(p, nodes[x], k);
        }
      }
    }
  }

  /** The peer name of a compared key file agrees, after normalisation, with the hostname of the last node that compared against it. */
  lemma {:induction false} PeerUpdateLast(nodes: map<NodeId, Node>, s: seq<NodeId>, online: set<NodeId>, peers: map<string, string>, i: int)
    requires forall x | x in s :: x in nodes
    requires LastUser(nodes, s, online, i)
    ensures PeerUpdate(nodes, s, online, peers).Some? ==>
      var p := PeerUpdate(nodes, s, online, peers).value;
      nodes[s[i]].keyFile in p && Norm(p[nodes[s[i]].keyFile]) == Norm(nodes[s[i]].name)
    decreases |s|
  {
    var q := s[..|s| - 1];
    var x := s[|s| - 1];
    var k := nodes[s[i]].keyFile;
    PeerUpdateKeys(nodes, s, online, peers);
    PeerUpdateKeys(nodes, q, online, peers);
    if i < |q| {
      assert LastUser(nodes, q, online, i) by {
        assert q[i] == s[i];
        forall j | i < j < |q| && UsesKey(nodes[q[j]], q[j], online)
          ensures nodes[q[j]].keyFile != k
        {
          assert q[j] == s[j];
        }
      }
      PeerUpdateLast(nodes, q, online, peers, i);
      if PeerUpdate(nodes, s, online, peers).Some? {
        var p := PeerUpdate(nodes, q, online, peers).value;
        var p' := PeerUpdate(nodes, s, online, peers).value;
        assert PeerUpdate(nodes, s, online, peers) == if UsesKey(nodes[x], x, online) then PeerStep(p, nodes[x]) else Some(p);
        if UsesKey(nodes[x], x, online) {
          assert nodes[s[|s| - 1]].keyFile != k;
          PeerStepOther(p, nodes[x], k);
        }
      }
    } else if PeerUpdate(nodes, s, online, peers).Some? {
      assert x == s[i];
      var p := PeerUpdate(nodes, q, online, peers).value;
      var p' := PeerUpdate(nodes, s, online, peers).value;
      PeerStepOwn(p, nodes[x]);
    }
  }

  /** A comparison that succeeds leaves the peer name of its key file equal, after normalisation, to the hostname. */
  lemma PeerStepOwn(p: map<string, string>, n: Node)
    requires PeerStep(p, n).Some?
    ensures n.keyFile in PeerStep(p, n).value && Norm(PeerStep(p, n).value[n.keyFile]) == Norm(n.name)
  {
  }

  /** A comparison leaves the peer names of other key files alone. */
  lemma PeerStepOther(p: map<string, string>, n: Node, k: string)
    requires k in p && k != n.keyFile && PeerStep(p, n).Some?
    ensures k in PeerStep(p, n).value && PeerStep(p, n).value[k] == p[k]
  {
    if Norm(n.name) != Norm(p[n.keyFile]) {
      assert PeerStep(p, n).value == p[n.keyFile := n.name];
    } else {
      assert PeerStep(p, n).value == p;
    }
  }
}
