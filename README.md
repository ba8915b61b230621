# Freifunk Stuttgart mesh-cloud segment check and onboarding helpers, in Dafny

This project models two parts of the Freifunk Stuttgart monitoring and onboarding tools.

**The mesh-net engine (`ffMeshNet`).** It works on a snapshot of the node table:
- which nodes exist;
- their status (`'?'`, `' '`, `'V'`);
- their segment, wanted segment, segment mode, key directory and key file;
- their mesh neighbours.

The engine first repairs the table and gathers per-segment statistics (`__CheckConsistency`). It then groups nodes into mesh clouds by following neighbour links, merging clouds that turn out to be one (`__CreateMeshCloudList`, `__AddNeighbour2Cloud`). For each cloud it decides the segment all its members must be in (`__GetCloudSegment`). It raises shortcut alerts and schedules key moves (`__CheckMeshClouds`, `__MarkNodesInCloudForMove`). Last, it schedules moves for nodes outside any cloud (`__CheckSingleNodes`). `GetMoveDict` hands out the scheduled moves.

The engine is the class `MeshNet.MeshNet`. Its fields are the node table, the MAC index, the cloud table with its insertion order, the move table and the alert list, and its methods update them in place. Each method's contract states its new state, except where the source stops on an exception partway through (see `CheckConsistency` under "## Left out"). Where the source computes something, the contract ties the result to a specification function; the cloud builder's contracts state the invariants it keeps instead. The specification modules are:
- `Consistency`: repair, statistics and peer-name updates;
- `CloudSpec`: the partition of nodes into clouds;
- `SegmentVote`: the fixed-node scan and the weighted segment vote;
- `CloudCheck`: the per-cloud verdict and the fold over all clouds.

The class invariant `Valid()` says that:
- clouds partition the assigned nodes;
- every cloud's client sum and firmware minimum match its members;
- the cloud order lists exactly the clouds, each once.

**The onboarding helpers (`ffs-Onboarding.py`).** These are:
- the two Gluon MAC generation schemes (`GluonMacs`);
- the segment read off a node's IPv6 addresses;
- the link-local address built from a MAC;
- the validation of a node description (`NodeInfo`);
- the choice of a default segment from the segment statistics (`DefaultSegment`).

The segment of an address is read from its characters 12 and 13 (`NodeInfo.TwoCharacters`) and those two decimal digits give its value (`NodeInfo.TwoDigitSegment`).

`Hex` and `PyStr` hold the pieces of Python's `hex`, `int`, `strip`, `lower` and `replace` that these need.

Source paths below are relative to the repository root.

## Model

| member | source | states |
|---|---|---|
| MeshNet.MeshNet.constructor | Monitoring/class_ffMeshNet.py:69-88 | the engine starts with the given node table, MAC index, online set, known segments and peer names, no clouds, no moves, no alerts, and the class invariant holds |
| MeshNet.MeshNet.CheckConsistency | Monitoring/class_ffMeshNet.py:419-469 | succeeds exactly when every online node with a key file finds it among the peer names; then every node is repaired, the segment statistics are those of the repaired table, and the peer names are the fold of the name updates |
| MeshNet.MeshNet.ConsistencyPass | Monitoring/class_ffMeshNet.py:423-466 | the loop over the node table: keeps its keys, and relates the repaired table, statistics and peer names to the specification functions |
| MeshNet.MeshNet.CheckNode | Monitoring/class_ffMeshNet.py:424-466 | one node: it is repaired, counted in its segment when online in a known segment, and its key's peer name updated; reports a missing key |
| MeshNet.MeshNet.RepairNode | Monitoring/class_ffMeshNet.py:432-443 | replaces one node by its repaired form and nothing else |
| MeshNet.MeshNet.CountNode | Monitoring/class_ffMeshNet.py:447-458 | adds a node to its segment's counters when its segment is known, else leaves them |
| MeshNet.MeshNet.ComparePeerName | Monitoring/class_ffMeshNet.py:462-466 | a present key's peer name becomes the node name when the stripped lower-case names differ; the key set never changes; a missing key is reported |
| Consistency.Repair | Monitoring/class_ffMeshNet.py:432-443 | only status and segment change; `'?'` nodes are untouched; an uplink without key directory is demoted to passive and every other seen node keeps its status; a known segment is kept; a missing segment comes from the wanted segment, else the key directory |
| Consistency.RepairIdempotent | Monitoring/class_ffMeshNet.py:432-443 | repairing twice equals repairing once |
| Consistency.AllRepaired | Monitoring/class_ffMeshNet.py:423-443 | after the loop the table is the repaired table |
| Consistency.SegStatsBySegment | Monitoring/class_ffMeshNet.py:447-460 | a segment has counters iff some online node of a known segment is in it; its counters are the number of such nodes, their client sum and their uplink count |
| Consistency.PeerUpdateFails | Monitoring/class_ffMeshNet.py:462-466 | the peer-name pass completes exactly when every key it looks up is present |
| Consistency.PeerUpdateKeys | Monitoring/class_ffMeshNet.py:462-466 | the pass never adds or removes a key |
| Consistency.PeerUpdateKeeps | Monitoring/class_ffMeshNet.py:462-466 | a key no online node uses keeps its peer name |
| Consistency.PeerUpdateLast | Monitoring/class_ffMeshNet.py:462-466 | after the pass, the last online user of a key has a peer name that matches its own name after strip and lower |
| Consistency.NormLower | Monitoring/class_ffMeshNet.py:463 | the normalised name has no upper-case letter and is no longer than the name |
| Consistency.NormLeading | Monitoring/class_ffMeshNet.py:463 | leading white space does not change the normalised name |
| MeshNet.MeshNet.AddNeighbour2Cloud | Monitoring/class_ffMeshNet.py:116-155 | keeps the invariant; the cloud only grows (members kept, nodes only join it, absorbed clouds become part of it); a seen node ends in the cloud; a seen node that was in no cloud on entry has every seen neighbour in the cloud; every member the cloud gains has every seen neighbour in it, and every other cloud stays closed under neighbours; called for a neighbour of member `from`, it keeps every cloud connected (each member reached from its seed over links between members); terminates because the unassigned set shrinks |
| MeshNet.MeshNet.JoinAndSpread | Monitoring/class_ffMeshNet.py:120-135 | an unassigned seen node joins the cloud, then every seen neighbour of it is in the cloud; every gained member has its seen neighbours in the cloud; other clouds stay closed; joining over the link from member `from` keeps every cloud connected |
| MeshNet.MeshNet.VisitNeighbour | Monitoring/class_ffMeshNet.py:131-135 | one neighbour MAC: afterwards its node, if seen, is in the cloud, and the loop's growth, reached neighbours, closure and connectivity facts carry over |
| MeshNet.MeshNet.AddNeighboursOf | Monitoring/class_ffMeshNet.py:130-135 | after the neighbour loop every seen neighbour MAC's node is in the cloud, every member gained meanwhile has its seen neighbours in the cloud, other clouds stay closed, and every cloud stays connected |
| MeshNet.MeshNet.JoinCloud | Monitoring/class_ffMeshNet.py:122-128 | the node joins the cloud: the client sum grows by its clients, it is appended to the members, the firmware minimum takes it in when it is an uplink, and the invariant holds |
| MeshNet.MeshNet.AbsorbCloudOf | Monitoring/class_ffMeshNet.py:138-155 | a node of another cloud, reached over a link from a member, brings its whole cloud in: a growth that assigns no new node, keeps the other clouds closed and every cloud connected, and the absorbed members have their seen neighbours in the cloud |
| MeshNet.MeshNet.MergeClouds | Monitoring/class_ffMeshNet.py:140-155 | the other cloud is absorbed: sums add, members concatenate, firmware is the lower one, its members point to the surviving cloud, it is removed from the table and the order, and no node becomes unassigned |
| MeshNet.MeshNet.Repoint | Monitoring/class_ffMeshNet.py:151-153 | every node of the old cloud points to the new one, others unchanged |
| CloudSpec.AddKeepsPartition | Monitoring/class_ffMeshNet.py:122-124 | joining an unassigned node keeps clouds a partition with correct totals |
| CloudSpec.MergeKeepsPartition | Monitoring/class_ffMeshNet.py:140-155 | merging keeps clouds a partition with correct totals and does not change the unassigned set |
| CloudSpec.DiscardKeepsPartition | Monitoring/class_ffMeshNet.py:185-188 | dropping a single-node cloud and clearing its node keeps the partition |
| CloudSpec.MembersDisjoint | Monitoring/class_ffMeshNet.py:116-155 | no node is a member of two clouds |
| CloudSpec.SumClientsConcat | Monitoring/class_ffMeshNet.py:145 | the client sum of concatenated member lists is the sum of the sums |
| CloudSpec.MinGluonConcat | Monitoring/class_ffMeshNet.py:148-149 | the firmware minimum of a merged cloud is the lower of the two minima |
| CloudSpec.MinGluonIsMinimum | Monitoring/class_ffMeshNet.py:127-128 | a cloud's firmware value is at most 99 and at most every uplink member's, and is 99 or some uplink member's |
| MeshNet.MeshNet.SeedCloud | Monitoring/class_ffMeshNet.py:176-181 | a fresh empty cloud keyed by the node is added at the end of the order |
| MeshNet.MeshNet.DiscardCloud | Monitoring/class_ffMeshNet.py:185-188 | a single-member cloud is removed and its node is unassigned again |
| MeshNet.MeshNet.GrowFromSeed | Monitoring/class_ffMeshNet.py:176-183 | the seed's new cloud holds the seed and every seen neighbour of it, and every cloud is closed (it holds every seen neighbour of each of its members) and connected (each member is reached from the seed over links between members) |
| MeshNet.MeshNet.BuildCloudAt | Monitoring/class_ffMeshNet.py:173-191 | every kept cloud has at least two members and its seed, and every cloud is closed under neighbours and connected; a seed left unassigned has no seen neighbour other than itself |
| MeshNet.MeshNet.CreateMeshCloudList | Monitoring/class_ffMeshNet.py:166-195 | from no clouds: the invariant holds, every cloud has at least two members, every cloud holds every seen neighbour of each of its members, every member of a cloud is reached from its seed over links between members, and every seen node left outside a cloud has no seen neighbour other than itself |
| CloudSpec.GrewKeepsOthersClosed | Monitoring/class_ffMeshNet.py:116-155 | growing one cloud leaves every other cloud still in the table closed under neighbours |
| CloudSpec.MergeKeepsClosure | Monitoring/class_ffMeshNet.py:138-155 | absorbing a closed cloud is a growth that keeps the other clouds closed, and the absorbed members have their seen neighbours in the surviving cloud |
| CloudSpec.JoinKeepsConnected | Monitoring/class_ffMeshNet.py:120-124 | a node joining a cloud over a link from one of its members, or as the seed of an empty cloud, keeps every cloud connected |
| CloudSpec.MergeKeepsConnected | Monitoring/class_ffMeshNet.py:138-155 | absorbing a cloud over a link from a member to one of its members keeps every cloud connected |
| CloudSpec.LinkStaysInCloud | Monitoring/class_ffMeshNet.py:116-188 | in a closed table whose unassigned seen nodes are lonely, a seen node linked to a member in either direction is a member: with connectivity, each cloud is a connected component of the links between seen nodes |
| CloudSpec.DiscardKeepsConnected | Monitoring/class_ffMeshNet.py:185-188 | dropping a single-member cloud keeps the remaining clouds connected |
| CloudSpec.DiscardKeepsClosed | Monitoring/class_ffMeshNet.py:185-188 | dropping a single-member cloud keeps the remaining clouds closed |
| CloudSpec.GrowthStep | Monitoring/class_ffMeshNet.py:130-135 | one neighbour visit carries over the growth, the reached prefix of the neighbour list and the closure of the gained members |
| MeshNet.MeshNet.LonelySeed | Monitoring/class_ffMeshNet.py:185-188 | a seed whose cloud stayed below two members has no seen neighbour other than itself |
| MeshNet.MeshNet.ScanMembers | Monitoring/class_ffMeshNet.py:303-331 | the member loop yields the uplink segments, online flag, desired and fixed groups and the manual overrides of the specification scan |
| CloudCheck.ScanOnline | Monitoring/class_ffMeshNet.py:306-307 | the cloud is online iff one of its members is |
| CloudCheck.ScanUplinks | Monitoring/class_ffMeshNet.py:312-316 | the uplink segments are distinct and are exactly the key segments of online uplink members |
| CloudCheck.ScanDesired | Monitoring/class_ffMeshNet.py:318-325 | a node is in a desired group iff it is a member whose wanted segment (after the manual override) is that segment |
| CloudCheck.ScanFixedNodes | Monitoring/class_ffMeshNet.py:327-331 | a node is in a fixed group iff it is a fixed member currently in that segment |
| CloudCheck.ScanNodes | Monitoring/class_ffMeshNet.py:318-319 | the scan overrides the wanted segment of exactly the cloud's manual members with a key directory |
| CloudCheck.Override | Monitoring/class_ffMeshNet.py:318-319 | a manual node with a key directory wants its key's segment, others keep theirs |
| SegmentVote.GetCloudSegment | Monitoring/class_ffMeshNet.py:230-281 | returns the decision of the specification (`Resolve`): fixed scan when there are fixed nodes, vote otherwise |
| SegmentVote.ScanFixed | Monitoring/class_ffMeshNet.py:238-249 | the nested loop over fixed groups equals the fixed-node scan |
| SegmentVote.ScanGroup | Monitoring/class_ffMeshNet.py:240-249 | the inner loop over one fixed group extends the scan by that group |
| SegmentVote.FixScanAgree | Monitoring/class_ffMeshNet.py:238-252 | the scan flags multiple segments iff two online fixed nodes are in different segments; otherwise no alert, every online fixed node agrees with the target, and a target is some online fixed node's segment |
| SegmentVote.FixScanConflict | Monitoring/class_ffMeshNet.py:241-249 | on disagreement, the first conflicting node decides: an uplink drops the target with a shortcut alert, another keeps the first segment |
| SegmentVote.ResolveFixed | Monitoring/class_ffMeshNet.py:238-255 | with fixed nodes: the multi-segment alarm is raised iff they disagree; agreeing nodes give their segment |
| SegmentVote.ResolveConflict | Monitoring/class_ffMeshNet.py:241-252 | disagreement outcome: target from the first conflict, the scan's alerts followed by the alarm |
| SegmentVote.ResolveVote | Monitoring/class_ffMeshNet.py:257-281 | without fixed nodes: no alert; no desired segment gives 0; otherwise the target has maximal weight, breaking ties by larger maximal uptime, and beats every earlier segment strictly; the lookup of segment 0's uptime fails iff the first segment weighs 0 and 0 is not desired |
| SegmentVote.TallyVotes | Monitoring/class_ffMeshNet.py:260-274 | the loop computes every desired segment's weight and maximal uptime |
| SegmentVote.TallySegment | Monitoring/class_ffMeshNet.py:264-274 | one segment's weight (10 manual, 4 with key, 1 otherwise, eligible nodes only) and maximal uptime |
| SegmentVote.Weight | Monitoring/class_ffMeshNet.py:264-274 | between 0 and 10 per node, and 0 iff no node may be assigned the segment |
| SegmentVote.MaxUptime | Monitoring/class_ffMeshNet.py:264-267 | the largest uptime of an eligible node, or 0 |
| SegmentVote.TalliesOf | Monitoring/class_ffMeshNet.py:260-274 | the tallies are defined on exactly the desired segments with their weight and uptime |
| SegmentVote.SelectSegment | Monitoring/class_ffMeshNet.py:276-279 | the selection loop equals the vote, including the failing uptime lookup |
| SegmentVote.VoteResult | Monitoring/class_ffMeshNet.py:276-279 | the vote's winner has maximal weight, ties broken by uptime, and strictly beats all earlier segments; it fails iff the first segment weighs 0 and 0 has no uptime |
| CloudCheck.Decide | Monitoring/class_ffMeshNet.py:336-367 | the cloud verdict: shortcut alert for several uplink segments or no target; no target blocks actions; an offline cloud without uplinks and target 0 fails on the empty uplink list; target 0 becomes the single uplink's segment |
| MeshNet.MeshNet.Conclude | Monitoring/class_ffMeshNet.py:334-367 | applies the verdict: alerts, analyse-only flag, moves and the cloud's segment |
| MeshNet.MeshNet.MarkNodesInCloudForMove | Monitoring/class_ffMeshNet.py:205-220 | exactly the members with a key in another segment are scheduled to the target; target 0 schedules nothing; other moves kept |
| CloudCheck.Marked | Monitoring/class_ffMeshNet.py:205-220 | the move table after marking: new keys are movable members, their value is the target |
| MeshNet.MeshNet.CheckOneCloud | Monitoring/class_ffMeshNet.py:295-367 | one cloud's pass equals the specification step `CheckCloud` |
| MeshNet.MeshNet.CheckMeshClouds | Monitoring/class_ffMeshNet.py:291-370 | the pass over all clouds in insertion order equals the specification fold, which stops at the first failing cloud; the invariant holds |
| MeshNet.MeshNet.CheckCloudsInOrder | Monitoring/class_ffMeshNet.py:295-367 | the loop over the cloud order equals the fold |
| CloudCheck.CheckCloudsStops | Monitoring/class_ffMeshNet.py:295 | after a failing cloud nothing changes |
| CloudCheck.CheckCloudsMoves | Monitoring/class_ffMeshNet.py:343-365 | every move scheduled by the cloud pass moves a node away from its current key segment |
| CloudCheck.CheckCloudsAlerts | Monitoring/class_ffMeshNet.py:336-344 | the cloud pass only appends alerts |
| CloudCheck.CheckCloudMoves | Monitoring/class_ffMeshNet.py:343-365 | one cloud schedules moves only for its own members, away from their segment |
| MeshNet.MeshNet.CheckSingleNodes | Monitoring/class_ffMeshNet.py:380-410 | the move table after the single-node pass is the specification `SingleMoves` |
| CloudCheck.SingleMove | Monitoring/class_ffMeshNet.py:384-407 | a seen unassigned node with a key below 65, firmware 2 or newer, auto or `fix ` mode and an eligible wanted segment other than its key's is moved there; an unseen node wanting 999 with key directory and key file is retired; nothing else |
| CloudCheck.SingleMoves | Monitoring/class_ffMeshNet.py:384-407 | the move table after the pass: scheduled nodes get their single move, others keep theirs |
| MeshNet.MeshNet.CheckSegments | Monitoring/class_ffMeshNet.py:479-485 | all three passes: `built`, the state after building, has the old node table, moves and alerts, clouds of two members or more, each closed under neighbours and connected; the final tables, alerts and flag are the cloud fold `CheckClouds` from `built`; the final moves are `SingleMoves` over the fold's moves when no cloud failed, else the fold's moves; the fold only appends alerts and its moves move nodes away from their segment |
| MeshNet.MeshNet.CheckBuiltClouds | Monitoring/class_ffMeshNet.py:482-483 | the cloud pass then the single-node pass: tables, alerts and flag are the fold's, moves are `SingleMoves` over the fold's moves unless a cloud failed |
| MeshNet.MeshNet.GetMoveDict | Monitoring/class_ffMeshNet.py:495-502 | no result iff no move is scheduled, else the move table |
| GluonMacs.GenerateGluonMACsOld | Onboarding/ffs-Onboarding.py:553-572 | the list is the old-scheme MAC of each slot of the ranges 1:1, 2:2, 3:2, 4:0, 5:2 in order |
| GluonMacs.MacsForRanges | Onboarding/ffs-Onboarding.py:565-570 | the outer loop builds the MACs of all slots of the ranges so far |
| GluonMacs.MacsForRun | Onboarding/ffs-Onboarding.py:566-570 | the inner loop builds the MACs of one range |
| GluonMacs.SlotsOfRanges | Onboarding/ffs-Onboarding.py:555-566 | the twelve (f, i) slots in loop order |
| GluonMacs.OldFirst | Onboarding/ffs-Onboarding.py:561 | the first octet with the locally-administered bit set and the others kept |
| GluonMacs.OldMacOctets | Onboarding/ffs-Onboarding.py:567-570 | each old MAC is a MAC with octet 0 from the main MAC with bit 1 set, octets 1 and 2 the main octets plus f and i modulo 256, and the last three octets copied |
| GluonMacs.OldMacInjective | Onboarding/ffs-Onboarding.py:567-568 | for f and i below 256, two old MACs are equal iff their slots are |
| GluonMacs.OldMacsDistinct | Onboarding/ffs-Onboarding.py:555-570 | the old scheme yields twelve pairwise distinct MACs sharing octet 0 and the last three octets |
| GluonMacs.OldMacsAppend | Onboarding/ffs-Onboarding.py:565-570 | the MACs of concatenated slot lists are the concatenated MAC lists |
| GluonMacs.SlotsAscending | Onboarding/ffs-Onboarding.py:565-566 | slots come in strictly ascending order, so they are distinct |
| GluonMacs.GenerateGluonMACsNew | Onboarding/ffs-Onboarding.py:609-625 | eight MACs, the i-th being the shared prefix and the base octet plus i |
| GluonMacs.NewFirst | Onboarding/ffs-Onboarding.py:617 | the digest's first octet with the local bit set and the group bit cleared |
| GluonMacs.NewBase | Onboarding/ffs-Onboarding.py:615-623 | the digest's sixth octet with the three low bits cleared, leaving room for eight |
| GluonMacs.NewMacOctets | Onboarding/ffs-Onboarding.py:617-623 | each new MAC is a MAC: octet 0 from `NewFirst`, octets 1 to 4 copied from the digest, octet 5 the base plus i |
| GluonMacs.NewMacsDistinct | Onboarding/ffs-Onboarding.py:617-623 | two new MACs are equal iff their interface numbers are, and all share the first five octets |
| NodeInfo.SegmentFromAddresses | Onboarding/ffs-Onboarding.py:277-290 | the address loop equals the specification scan over the readings of the addresses |
| NodeInfo.ReadingOf | Onboarding/ffs-Onboarding.py:279-283 | off-site iff the site prefix is missing; unreadable iff the segment text does not parse; otherwise the parsed segment (`1e` is 0) |
| NodeInfo.ScanSegment | Onboarding/ffs-Onboarding.py:277-287 | a scan without conflict or exception gives the segment every site address names (and the one recorded before); it gives none iff there is no site address and none was recorded |
| NodeInfo.ScanConflict | Onboarding/ffs-Onboarding.py:285-290 | two site addresses naming different segments, with none unreadable before the second, make the description void |
| NodeInfo.ScanConflictSeen | Onboarding/ffs-Onboarding.py:285-290 | an address disagreeing with a segment already seen, with none unreadable before it, makes the description void |
| NodeInfo.ScanRaises | Onboarding/ffs-Onboarding.py:283 | the scan raises only if some site address has an unreadable segment |
| NodeInfo.TwoCharacters | Onboarding/ffs-Onboarding.py:279-283 | the segment is read from characters 12 and 13 of the address |
| NodeInfo.TwoDigitSegment | Onboarding/ffs-Onboarding.py:283 | two decimal digits give their decimal value |
| NodeInfo.LinkLocalGroups | Onboarding/ffs-Onboarding.py:377 | the link-local address is `fe80::` and the four EUI-64 groups, then `%` and the interface |
| NodeInfo.GroupTextsEui64 | Onboarding/ffs-Onboarding.py:377 | each group text is hexadecimal and has the value of the EUI-64 group of the MAC (first octet with bit 1 flipped, `ff:fe` in the middle) |
| NodeInfo.Eui64Injective | Onboarding/ffs-Onboarding.py:377 | distinct octets give distinct EUI-64 groups (MAC text differing only in letter case gives equal groups) |
| NodeInfo.FlipLocal | Onboarding/ffs-Onboarding.py:377 | the XOR with 2 flips exactly bit 1 |
| NodeInfo.CheckDescription | Onboarding/ffs-Onboarding.py:403-407 | a description is kept unchanged or dropped; it is kept iff it has a node id, a MAC and a hostname, and the node id has twelve characters and is the MAC without colons |
| NodeInfo.CheckNeedsTwelveDigits | Onboarding/ffs-Onboarding.py:403-407 | a MAC that does not leave twelve characters once its colons are removed makes the description void, whatever the node id |
| NodeInfo.CheckAcceptsOwnId | Onboarding/ffs-Onboarding.py:403-407 | a complete description is accepted iff its node id is its MAC without colons |
| NodeInfo.MacNodeId | Onboarding/ffs-Onboarding.py:406 | removing colons from a MAC leaves its twelve hexadecimal digits |
| DefaultSegment.GetDefaultSegment | Onboarding/ffs-Onboarding.py:942-977 | the loop over the statistics equals `ChooseSegment` |
| DefaultSegment.ChooseSegmentSpec | Onboarding/ffs-Onboarding.py:942-977 | the fallback 5 when the statistics are unreadable or an entry raises; otherwise none iff no candidate weighs below 9999, else the first lightest candidate segment (1 to 8 but not 6) |
| DefaultSegment.StepOf | Onboarding/ffs-Onboarding.py:958-966 | an entry is weighed only for a candidate segment with a non-`'0'` count and integer sum and count, the weight being the truncated quotient; it is skipped iff its key is an integer and it is no candidate or has count `'0'` |
| DefaultSegment.TruncDiv | Onboarding/ffs-Onboarding.py:962 | the quotient rounded toward zero |
| DefaultSegment.PickFails | Onboarding/ffs-Onboarding.py:968-970 | any raising entry makes the result the fallback |
| DefaultSegment.PickLightest | Onboarding/ffs-Onboarding.py:964-966 | with a candidate below the bound, the result is the first of the lightest candidates |
| DefaultSegment.PickKeeps | Onboarding/ffs-Onboarding.py:964-966 | with no candidate below the bound, the previous choice stays |
| PyStr.ParseInt | Onboarding/ffs-Onboarding.py:958 | `int` of text succeeds only on a non-empty stripped text ending in a digit |
| PyStr.ParseDecimal | Onboarding/ffs-Onboarding.py:958 | `int(str(n)) == n` |
| PyStr.LowerSpec | Monitoring/class_ffMeshNet.py:463 | `lower` maps every character and leaves no upper-case ASCII letter |
| PyStr.Remove | Onboarding/ffs-Onboarding.py:406 | `replace(c, '')` removes every `c` and keeps every other character |
| Hex.Hex2 | Onboarding/ffs-Onboarding.py:561 | `hex(v)[2:].zfill(2)` for v below 256 is two hex digits of value v |
| Hex.Hex2Injective | Onboarding/ffs-Onboarding.py:567-568 | different octets give different texts |
| Hex.HexShort | Onboarding/ffs-Onboarding.py:377 | `hex(v)[2:]` for v below 256 is one or two hex digits of value v, two iff v is 16 or more |

## Left out

- Printing, the lock file, reading the statistics file, HTTP requests, retries and sleeping are left out. The statistics are an input (`None` when reading them raised); the node description is an input.
- `IsOnline`, `GwInfos.Segments()` and `FastdKeyDict` are inputs of the engine: the online set, the known segments and the peer-name map.
- `GetUplinkList` and the active-segment list of `__CheckMeshClouds` only feed a printed message, so they are left out.
- `InfoFromGluonStatusPage`, `WriteMeshCloudList` and the rest of the repository are not part of this model.
- MeshNet.MeshNet.constructor: does not call `CheckConsistency`; the model calls it as a separate method that reports whether a peer-name lookup would raise `KeyError`.
- MeshNet.MeshNet.CheckConsistency: when `ok` is false the contract states only the class invariant. The source stops at the `KeyError` with the nodes before the failing one repaired and counted; that partial table, the partial statistics and the partial peer names are not stated.
- A `KeyError` or `IndexError` the source would raise is modelled as `ok == false`. This covers a missing peer name, the uptime of segment 0 in the vote, and the empty uplink list at line 363. The engine stops there, as the exception would stop it.
- Key directories are modelled as `Some(NN)` for `vpnNN` and `None` for an empty directory. A key directory whose suffix is not an integer is not modelled.
- PyStr.ParseInt: handles ASCII white space, an optional sign and ASCII digits only. Python's Unicode digits and underscores are not modelled.
- Consistency.Norm: `strip().lower()` is modelled on ASCII letters and white space only.
- DefaultSegment.TruncDiv: `int(a / b)` goes through a float. The model uses exact truncation toward zero, so rounding of quotients above 2^53 is not modelled.
- DefaultSegment.IntOf: JSON values other than strings and integers (floats, lists, null) are not modelled.
- GluonMacs.GenerateGluonMACsNew: the md5 digest is a parameter (a string starting with twelve hexadecimal digits); md5 itself is not modelled.
- The constructor requires every entry of the MAC index to name a node of the table. With a dangling entry the source raises `KeyError` at Monitoring/class_ffMeshNet.py:118; that error path is not modelled.
- `__AddNeighbour2Cloud` is plain Python recursion (Monitoring/class_ffMeshNet.py:133). A `RecursionError` on a long neighbour path is not modelled; the model's recursion always completes.
- The hostname mismatch at line 464 is only printed by the source, not added to the alerts. The model follows the code.
- With disagreeing fixed nodes, a conflicting node that is not an uplink keeps the first fixed segment as target. The model follows the code here too.
