/** The records of the mesh snapshot: nodes, mesh clouds, segment statistics and alert tags. */
module MeshTypes {
  import opened Common

  /** A node's id (its main MAC without colons) and any MAC it reports as a mesh neighbour. */
  type NodeId = string
  type Mac = string

  /** The status column of a node: `'?'` not seen, `' '` seen without VPN uplink, `'V'` with a VPN uplink. */
  datatype Status = Unknown | Passive | Uplink

  /** Firmware generations, ordered by capability. */
  const NodeTypeSegmentList := 2
  const NodeTypeDnsSegAssign := 3

  /** Initial `GluonType` of a fresh cloud, above every real firmware generation. */
  const CloudGluonTypeStart := 99

  /** `DestSeg` value that asks for the node's key to be retired. */
  const KillSegment := 999

  /** One entry of the node table. `keyDir` is the key directory `vpnNN` read as `Some(NN)`, the empty directory as `None`. */
  datatype Node = Node(
    status: Status,
    segment: Option<int>,
    destSeg: Option<int>,
    segMode: string,
    keyDir: Option<int>,
    keyFile: string,
    neighbours: seq<Mac>,
    clients: int,
    gluonType: int,
    uptime: int,
    name: string)

  /** `SegMode[:6] == 'manual'` */
  predicate IsManual(n: Node) { HasPrefix(n.segMode, "manual") }

  /** `SegMode[:3] == 'fix'`: the node cannot be moved. */
  predicate IsFixed(n: Node) { HasPrefix(n.segMode, "fix") }

  /** `SegMode[:4]` is `'auto'` or `'fix '`. */
  predicate IsAutoOrFixSpace(n: Node) { HasPrefix(n.segMode, "auto") || HasPrefix(n.segMode, "fix ") }

  /** A segment a node may be assigned to: up to 8 for every firmware, higher only from DNS segment assignment on. */
  predicate Eligible(n: Node, seg: int) { seg <= 8 || n.gluonType >= NodeTypeDnsSegAssign }

  /** A mesh cloud: its client sum, lowest firmware among its uplink members, members in discovery order, decided segment. */
  datatype Cloud = Cloud(numClients: int, gluonType: int, members: seq<NodeId>, cloudSegment: Option<int>)

  /** Per-segment counters of online nodes. */
  datatype SegStat = SegStat(nodes: nat, clients: int, uplinks: nat)

  /** The alert list's messages, as tags. */
  datatype Alert =
    | ShortcutFixedMultiSeg    // an uplink node pinned to another segment than the first fixed one
    | MultiFixedSegments       // online fixed nodes in more than one segment
    | ShortcutDetected         // a cloud bridges segments, or its segment cannot be decided
    | ShortcutUncorrectable    // the cloud's segment cannot be decided
    | ShortcutCorrected        // the cloud's members are scheduled into one segment
}
