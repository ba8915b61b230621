/**
 * The pure parts of onboarding a node: the segment named by its site addresses, the link-local address it is
 * reached at, and the check that its node id belongs to its MAC.
 */
module NodeInfo {
  import opened Common
  import opened PyStr
  import opened Hex

  /** The community's unique local prefix; the two characters after it name the segment. */
  const SitePrefix: string := "fd21:b4dc:4b"

  /** The address is a site address (`a[0:12] == 'fd21:b4dc:4b'`). */
  predicate InSite(a: string) {
    HasPrefix(a, SitePrefix)
  }

  /** `a[12:14]` of a site address: two characters, or fewer when the address is shorter. */
  function SegmentText(a: string): (t: string)
    requires InSite(a)
    ensures |t| <= 2 && (|a| >= 14 ==> t == a[12..14])
  {
    assert |SitePrefix| == 12;
    if |a| >= 14 then a[12..14] else a[12..]
  }

  /**
   * The segment a site address names: `1e` names segment 0, any other text is read by `int`; `None` where `int`
   * raises `ValueError`.
   */
  function AddressSegment(a: string): Option<int>
    requires InSite(a)
  {
    SegmentOfText(SegmentText(a))
  }

  /** The segment two characters name: `1e` names segment 0, any other text is read by `int`. */
  function SegmentOfText(t: string): Option<int> {
    if t == "1e" then Some(0) else ParseInt(t)
  }

  /** What one address says about the segment: nothing, a segment, or text that `int` cannot read. */
  datatype Reading = OffSite | Names(segment: int) | Unreadable

  /** The reading of one address. */
  function ReadingOf(a: string): (r: Reading)
    ensures r.OffSite? <==> !InSite(a)
    ensures InSite(a) ==> (r.Unreadable? <==> AddressSegment(a).None?)
    ensures r.Names? ==> AddressSegment(a) == Some(r.segment)
  {
    if !InSite(a) then OffSite
    else match AddressSegment(a)
      case None => Unreadable
      case Some(s) => Names(s)
  }

  /** The readings of `addrs`, in order. */
  function Readings(addrs: seq<string>): (rs: seq<Reading>)
    ensures |rs| == |addrs| && forall k | 0 <= k < |addrs| :: rs[k] == ReadingOf(addrs[k])
  {
    seq(|addrs|, k requires 0 <= k < |addrs| => ReadingOf(addrs[k]))
  }

  /** What scanning a node's addresses yields: the segment (`None` when no site address), a conflict, or an exception. */
  datatype AddressScan = Segment(segment: Option<int>) | Conflict | Raises

  /** Scanning readings from the front, `seen` being the segment recorded so far. */
  function Scan(rs: seq<Reading>, seen: Option<int>): AddressScan {
    if rs == [] then Segment(seen)
    else
      match rs[0]
      case OffSite => Scan(rs[1..], seen)
      case Unreadable => Raises
      case Names(s) => if seen.None? || seen == Some(s) then Scan(rs[1..], Some(s)) else Conflict
  }

  /**
   * The address loop of `InfoFromGluonNodeinfoPage`: records the segment of the first site address and gives up
   * with a conflict at the first site address naming another one.
   */
  method SegmentFromAddresses(addrs: seq<string>) returns (r: AddressScan)
    ensures r == Scan(Readings(addrs), None)
  {
    ghost var rs := Readings(addrs);
    var segment: Option<int> := None;
    var i := 0;
    while i < |addrs|
      invariant 0 <= i <= |addrs|
      invariant Scan(rs, None) == Scan(rs[i..], segment)
    {
      var a := addrs[i];
      assert rs[i..][0] == ReadingOf(a) && rs[i..][1..] == rs[i + 1..];
      assert |SitePrefix| == 12;
      if |a| >= 12 && a[..12] == SitePrefix {
        var s: int;
        if SegmentText(a) == "1e" {
          s := 0;
        } else {
          var parsed := ParseInt(SegmentText(a));
          if parsed.None? {
            return Raises;
          }
          s := parsed.value;
        }
        if segment.None? {
          segment := Some(s);
        } else if segment.value != s {
          return Conflict;
        }
      }
      i := i + 1;
    }
    return Segment(segment);
  }

  /**
   * A scan that ends with a segment saw every site address name that segment, and it is `None` exactly when
   * there was no site address and none recorded before.
   */
  lemma {:induction false} ScanSegment(rs: seq<Reading>, seen: Option<int>)
    requires Scan(rs, seen).Segment?
    ensures var r := Scan(rs, seen).segment;
      && (forall k | 0 <= k < |rs| && !rs[k].OffSite? :: rs[k].Names? && r == Some(rs[k].segment))
      && (seen.Some? ==> r == seen)
      && (r.None? <==> seen.None? && forall k | 0 <= k < |rs| :: rs[k].OffSite?)
  {
    if rs != [] {
      var seen' := if rs[0].Names? then Some(rs[0].segment) else seen;
      ScanSegment(rs[1..], seen');
      assert forall k | 1 <= k < |rs| :: rs[k] == rs[1..][k - 1];
    }
  }

  /**
   * Two readable site addresses naming different segments, with none unreadable before the second, make the scan a
   * conflict: the loop breaks there, whatever follows.
   */
  lemma {:induction false} ScanConflict(rs: seq<Reading>, seen: Option<int>, j: nat, k: nat)
    requires j < k < |rs| && rs[j].Names? && rs[k].Names? && rs[j].segment != rs[k].segment
    requires forall m | 0 <= m < k :: !rs[m].Unreadable?
    ensures Scan(rs, seen) == Conflict
  {
    var rest := rs[1..];
    assert rest[k - 1] == rs[k];
    if j == 0 {
      if seen.None? || seen == Some(rs[0].segment) {
        ScanConflictSeen(rest, rs[0].segment, k - 1);
      }
    } else {
      assert rest[j - 1] == rs[j];
      var seen' := if rs[0].Names? then Some(rs[0].segment) else seen;
      if rs[0].OffSite? || seen.None? || seen == seen' {
        ScanConflict(rest, seen', j - 1, k - 1);
      }
    }
  }

  /**
   * A readable site address naming a segment other than the recorded one, with none unreadable before it, makes a
   * conflict.
   */
  lemma {:induction false} ScanConflictSeen(rs: seq<Reading>, s: int, k: nat)
    requires k < |rs| && rs[k].Names? && rs[k].segment != s
    requires forall m | 0 <= m < k :: !rs[m].Unreadable?
    ensures Scan(rs, Some(s)) == Conflict
  {
    if k > 0 && (rs[0].OffSite? || rs[0] == Names(s)) {
      assert rs[1..][k - 1] == rs[k];
      ScanConflictSeen(rs[1..], s, k - 1);
    }
  }

  /** A scan raises only at a site address whose segment text `int` cannot read. */
  lemma {:induction false} ScanRaises(rs: seq<Reading>, seen: Option<int>)
    requires Scan(rs, seen) == Raises
    ensures exists k | 0 <= k < |rs| :: rs[k].Unreadable?
  {
    if !rs[0].Unreadable? {
      var seen' := if rs[0].Names? then Some(rs[0].segment) else seen;
      ScanRaises(rs[1..], seen');
      var k :| 0 <= k < |rs[1..]| && rs[1..][k].Unreadable?;
      assert rs[k + 1] == rs[1..][k];
    }
  }

  /** The segment text of a long enough site address is its two characters after the prefix. */
  lemma TwoCharacters(a: string)
    requires InSite(a) && |a| >= 14
    ensures AddressSegment(a) == SegmentOfText([a[12], a[13]])
  {
    assert SegmentText(a) == [a[12], a[13]];
  }

  /** Two decimal digits name the segment they read as decimal (`fd21:b4dc:4b03:...` names segment 3). */
  lemma TwoDigitSegment(x: char, y: char)
    requires IsDigit(x) && IsDigit(y)
    ensures SegmentOfText([x, y]) == Some(10 * DecDigitValue(x) + DecDigitValue(y))
  {
    assert [x, y] != "1e" by { assert [x, y][1] != 'e'; }
    ParseTwoDigits(x, y);
  }

  /** Octet 0 with the universal/local bit (bit 1) flipped, `o ^ 0x02`. */
  function FlipLocal(o: nat): (v: nat)
    requires o < 256
    ensures v < 256 && v / 4 == o / 4 && v % 2 == o % 2 && (v % 4 >= 2 <==> o % 4 < 2)
  {
    XorTwo(o);
    BitXor(o, 2)
  }

  /** The link-local address of the node whose primary MAC is `mac`, scoped to the interface `ifname`. */
  function LinkLocal(mac: string, ifname: string): string
    requires IsMac(mac)
  {
    "fe80::" + HexShort(FlipLocal(Octet(mac, 0))) + mac[3..8] + "ff:fe" + mac[9..14] + mac[15..17] + "%" + ifname
  }

  /**
   * The four 16-bit groups of the modified EUI-64 interface identifier of section 2.5.1 and Appendix A of RFC 4291:
   * the MAC's octets with `ff fe` inserted in the middle and the universal/local bit flipped.
   */
  function Eui64Groups(mac: string): (g: seq<nat>)
    requires IsMac(mac)
    ensures |g| == 4 && forall k | 0 <= k < 4 :: g[k] < 0x10000
  {
    Eui64Of(Octets(mac))
  }

  /** The six octets of a well-formed MAC. */
  function Octets(mac: string): (o: seq<nat>)
    requires IsMac(mac)
    ensures IsOctets(o) && forall k | 0 <= k < 6 :: o[k] == Octet(mac, k)
  {
    seq(6, k requires 0 <= k < 6 => Octet(mac, k))
  }

  /** Six values that fit in an octet each. */
  predicate IsOctets(o: seq<nat>) {
    |o| == 6 && forall k | 0 <= k < 6 :: o[k] < 256
  }

  /** The modified EUI-64 groups of six octets. */
  function Eui64Of(o: seq<nat>): (g: seq<nat>)
    requires IsOctets(o)
    ensures |g| == 4 && forall k | 0 <= k < 4 :: g[k] < 0x10000
  {
    [FlipLocal(o[0]) * 256 + o[1], o[2] * 256 + 0xff, 0xfe * 256 + o[3], o[4] * 256 + o[5]]
  }

  /** The hexadecimal texts of the four groups as the link-local address writes them. */
  function GroupTexts(mac: string): seq<string>
    requires IsMac(mac)
  {
    [HexShort(FlipLocal(Octet(mac, 0))) + mac[3..5], mac[6..8] + "ff", "fe" + mac[9..11], mac[12..14] + mac[15..17]]
  }

  /**
   * The link-local address is `fe80::` followed by the four group texts, separated by colons, and `%` with the
   * interface.
   */
  lemma LinkLocalGroups(mac: string, ifname: string)
    requires IsMac(mac)
    ensures var g := GroupTexts(mac);
      LinkLocal(mac, ifname) == "fe80::" + g[0] + ":" + g[1] + ":" + g[2] + ":" + g[3] + "%" + ifname
  {
    assert mac[3..8] == mac[3..5] + ":" + mac[6..8];
    assert mac[9..14] == mac[9..11] + ":" + mac[12..14];
  }

  /** Each group text of the link-local address is hexadecimal and reads as the modified EUI-64 group. */
  lemma GroupTextsEui64(mac: string)
    requires IsMac(mac)
    ensures forall k | 0 <= k < 4 :: AllHex(GroupTexts(mac)[k]) && Value(GroupTexts(mac)[k]) == Eui64Groups(mac)[k]
  {
    FirstGroup(mac);
    SecondGroup(mac);
    ThirdGroup(mac);
    FourthGroup(mac);
  }

  /** The first group text reads as the flipped octet 0 followed by octet 1. */
  lemma FirstGroup(mac: string)
    requires IsMac(mac)
    ensures AllHex(GroupTexts(mac)[0]) && Value(GroupTexts(mac)[0]) == Eui64Groups(mac)[0]
  {
    GroupValue(HexShort(FlipLocal(Octet(mac, 0))), mac[3], mac[4]);
    assert mac[3..5] == [mac[3], mac[4]];
  }

  /** The second group text reads as octet 2 followed by `ff`. */
  lemma SecondGroup(mac: string)
    requires IsMac(mac)
    ensures AllHex(GroupTexts(mac)[1]) && Value(GroupTexts(mac)[1]) == Eui64Groups(mac)[1]
  {
    ValueShort(mac[6..8]);
    GroupValue(mac[6..8], 'f', 'f');
  }

  /** The third group text reads as `fe` followed by octet 3. */
  lemma ThirdGroup(mac: string)
    requires IsMac(mac)
    ensures AllHex(GroupTexts(mac)[2]) && Value(GroupTexts(mac)[2]) == Eui64Groups(mac)[2]
  {
    GroupValue("fe", mac[9], mac[10]);
    ValueShort("fe");
    assert mac[9..11] == [mac[9], mac[10]];
  }

  /** The fourth group text reads as octet 4 followed by octet 5. */
  lemma FourthGroup(mac: string)
    requires IsMac(mac)
    ensures AllHex(GroupTexts(mac)[3]) && Value(GroupTexts(mac)[3]) == Eui64Groups(mac)[3]
  {
    ValueShort(mac[12..14]);
    GroupValue(mac[12..14], mac[15], mac[16]);
    assert mac[15..17] == [mac[15], mac[16]];
  }

  /** Appending the two digits of an octet multiplies the value so far by 256 and adds the octet. */
  lemma GroupValue(hi: string, a: char, b: char)
    requires AllHex(hi) && IsHexDigit(a) && IsHexDigit(b)
    ensures AllHex(hi + [a, b]) && Value(hi + [a, b]) == Value(hi) * 256 + Pair(a, b)
  {
    ValueAppend(hi, [a, b]);
    ValueShort([a, b]);
    assert Pow16(2) == 256;
  }

  /** The modified EUI-64 groups give back the octets: two MACs with the same groups have the same octets. */
  lemma Eui64Injective(o1: seq<nat>, o2: seq<nat>)
    requires IsOctets(o1) && IsOctets(o2) && Eui64Of(o1) == Eui64Of(o2)
    ensures o1 == o2
  {
    var g1, g2 := Eui64Of(o1), Eui64Of(o2);
    assert g1[0] == g2[0] && g1[1] == g2[1] && g1[2] == g2[2] && g1[3] == g2[3];
    SplitGroup(FlipLocal(o1[0]), o1[1], FlipLocal(o2[0]), o2[1]);
    SplitGroup(o1[2], 0xff, o2[2], 0xff);
    SplitGroup(0xfe, o1[3], 0xfe, o2[3]);
    SplitGroup(o1[4], o1[5], o2[4], o2[5]);
    FlipInjective(o1[0], o2[0]);
  }

  /** A 16-bit group determines its two octets. */
  lemma SplitGroup(a: nat, b: nat, c: nat, d: nat)
    requires b < 256 && d < 256 && a * 256 + b == c * 256 + d
    ensures a == c && b == d
  {
  }

  /** Flipping the universal/local bit loses nothing. */
  lemma FlipInjective(o1: nat, o2: nat)
    requires o1 < 256 && o2 < 256 && FlipLocal(o1) == FlipLocal(o2)
    ensures o1 == o2
  {
    XorTwo(o1);
    XorTwo(o2);
  }

  /** The identity fields of a node's description that the check reads. */
  datatype NodeDescription = NodeDescription(nodeId: Option<string>, mac: Option<string>, hostname: Option<string>)

  /**
   * The check at the end of `getNodeInfos`: a description is kept only with a node id, a MAC and a hostname, and
   * a node id of twelve characters that is the MAC without its colons.
   */
  function CheckDescription(info: Option<NodeDescription>): (r: Option<NodeDescription>)
    ensures r.Some? ==> r == info
    ensures r.Some? <==>
              && info.Some? && info.value.nodeId.Some? && info.value.mac.Some? && info.value.hostname.Some?
              && |info.value.nodeId.value| == 12 && info.value.nodeId.value == Remove(info.value.mac.value, ':')
  {
    match info
    case None => None
    case Some(d) =>
      if d.nodeId.None? || d.mac.None? || d.hostname.None? then None
      else if |d.nodeId.value| != 12 || d.nodeId.value != Remove(d.mac.value, ':') then None
      else info
  }

  /** A well-formed MAC without its colons is its twelve hexadecimal digits. */
  lemma MacNodeId(mac: string)
    requires IsMac(mac)
    ensures Remove(mac, ':') == mac[0..2] + mac[3..5] + mac[6..8] + mac[9..11] + mac[12..14] + mac[15..17]
    ensures |Remove(mac, ':')| == 12
  {
    var p := [mac[0..2], mac[3..5], mac[6..8], mac[9..11], mac[12..14], mac[15..17]];
    assert mac == p[0] + ":" + p[1] + ":" + p[2] + ":" + p[3] + ":" + p[4] + ":" + p[5];
    forall k | 0 <= k < 6 ensures Remove(p[k], ':') == p[k] {
      RemoveAbsent(p[k], ':');
    }
    assert Remove(":", ':') == [];
    RemoveAppend(p[0] + ":" + p[1] + ":" + p[2] + ":" + p[3] + ":" + p[4] + ":", p[5], ':');
    RemoveAppend(p[0] + ":" + p[1] + ":" + p[2] + ":" + p[3] + ":" + p[4], ":", ':');
    RemoveAppend(p[0] + ":" + p[1] + ":" + p[2] + ":" + p[3] + ":", p[4], ':');
    RemoveAppend(p[0] + ":" + p[1] + ":" + p[2] + ":" + p[3], ":", ':');
    RemoveAppend(p[0] + ":" + p[1] + ":" + p[2] + ":", p[3], ':');
    RemoveAppend(p[0] + ":" + p[1] + ":" + p[2], ":", ':');
    RemoveAppend(p[0] + ":" + p[1] + ":", p[2], ':');
    RemoveAppend(p[0] + ":" + p[1], ":", ':');
    RemoveAppend(p[0] + ":", p[1], ':');
    RemoveAppend(p[0], ":", ':');
  }

  /** A MAC text that does not hold exactly twelve characters besides its colons is never accepted, whatever the id. */
  lemma CheckNeedsTwelveDigits(d: NodeDescription)
    requires d.mac.Some? && |Remove(d.mac.value, ':')| != 12
    ensures CheckDescription(Some(d)).None?
  {
    if d.nodeId.Some? && d.nodeId.value == Remove(d.mac.value, ':') {
      assert |d.nodeId.value| != 12;
    }
  }

  /**
   * For a well-formed MAC, the check keeps a complete description exactly when its node id is the MAC's twelve
   * digits.
   */
  lemma CheckAcceptsOwnId(d: NodeDescription)
    requires d.nodeId.Some? && d.mac.Some? && d.hostname.Some? && IsMac(d.mac.value)
    ensures CheckDescription(Some(d)).Some? <==> d.nodeId.value == Remove(d.mac.value, ':')
  {
    MacNodeId(d.mac.value);
  }
}
