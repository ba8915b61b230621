/**
 * The MAC addresses a Gluon node derives from its primary MAC, for firmware before 2016.2 (from the primary MAC
 * itself) and from 2016.2 on (from the md5 hex digest of the primary MAC).
 */
module GluonMacs {
  import opened Hex

  /** Function `f` of the old scheme with its largest index: `f` runs over 1 to 5, index `i` over 0 to the bound. */
  const MacRanges: seq<(nat, nat)> := [(1, 1), (2, 2), (3, 2), (4, 0), (5, 2)]

  /** The pairs `(f, 0)` to `(f, n - 1)`. */
  function Run(f: nat, n: nat): (r: seq<(nat, nat)>)
    ensures |r| == n && forall i | 0 <= i < n :: r[i] == (f, i)
  {
    if n == 0 then [] else Run(f, n - 1) + [(f, n - 1)]
  }

  /** All `(f, i)` pairs of `ranges`, function by function, in order. */
  function Slots(ranges: seq<(nat, nat)>): seq<(nat, nat)> {
    if ranges == [] then []
    else
      var (f, top) := ranges[|ranges| - 1];
      Slots(ranges[..|ranges| - 1]) + Run(f, top + 1)
  }

  /** The twelve slots of the old scheme. */
  lemma SlotsOfRanges()
    ensures Slots(MacRanges) == [(1, 0), (1, 1), (2, 0), (2, 1), (2, 2), (3, 0), (3, 1), (3, 2), (4, 0), (5, 0), (5, 1), (5, 2)]
  {
    var r := MacRanges;
    assert r[..0] == [] && r[..5] == r;
    SlotsStep(r, 1);
    assert Slots(r[..1]) == [(1, 0), (1, 1)];
    SlotsStep(r, 2);
    assert Slots(r[..2]) == [(1, 0), (1, 1), (2, 0), (2, 1), (2, 2)];
    SlotsStep(r, 3);
    assert Slots(r[..3]) == [(1, 0), (1, 1), (2, 0), (2, 1), (2, 2), (3, 0), (3, 1), (3, 2)];
    SlotsStep(r, 4);
    assert Slots(r[..4]) == [(1, 0), (1, 1), (2, 0), (2, 1), (2, 2), (3, 0), (3, 1), (3, 2), (4, 0)];
    SlotsStep(r, 5);
  }

  /** The slots of one more range follow those of the ranges before it. */
  lemma SlotsStep(ranges: seq<(nat, nat)>, k: nat)
    requires 0 < k <= |ranges|
    ensures Slots(ranges[..k]) == Slots(ranges[..k - 1]) + Run(ranges[k - 1].0, ranges[k - 1].1 + 1)
  {
    assert ranges[..k][..k - 1] == ranges[..k - 1];
  }

  /** Octet 0 of the old scheme: the primary MAC's octet 0 with the locally administered bit (bit 1) set. */
  function OldFirst(main: string): (v: nat)
    requires IsMac(main)
    ensures v < 256 && v == 4 * (Octet(main, 0) / 4) + 2 + Octet(main, 0) % 2
  {
    OrTwo(Octet(main, 0));
    BitOr(Octet(main, 0), 2)
  }

  /** The old scheme's MAC for `(f, i)`, written as `xx:xx:xx:` followed by the primary MAC from octet 3 on. */
  function OldMac(main: string, f: nat, i: nat): string
    requires IsMac(main)
  {
    Hex2(OldFirst(main)) + ":" + Hex2((Octet(main, 1) + f) % 256) + ":" + Hex2((Octet(main, 2) + i) % 256) + ":" + main[9..]
  }

  /**
   * The old scheme's MAC for `(f, i)` is a MAC: the primary MAC with the locally administered bit set in octet 0,
   * `f` added to octet 1 and `i` to octet 2, each modulo 256, and octets 3 to 5 kept as written.
   */
  lemma OldMacOctets(main: string, f: nat, i: nat)
    requires IsMac(main)
    ensures var r := OldMac(main, f, i);
      && IsMac(r)
      && Octet(r, 0) == OldFirst(main)
      && Octet(r, 1) == (Octet(main, 1) + f) % 256
      && Octet(r, 2) == (Octet(main, 2) + i) % 256
      && r[8..] == main[8..]
  {
    var a, b, c := Hex2(OldFirst(main)), Hex2((Octet(main, 1) + f) % 256), Hex2((Octet(main, 2) + i) % 256);
    var r := OldMac(main, f, i);
    assert r[0] == a[0] && r[1] == a[1] && r[3] == b[0] && r[4] == b[1] && r[6] == c[0] && r[7] == c[1];
    assert r[8..] == main[8..];
  }

  /** The old scheme's MACs for `slots`, in order. */
  function OldMacs(main: string, slots: seq<(nat, nat)>): (r: seq<string>)
    requires IsMac(main)
    ensures |r| == |slots| && forall k | 0 <= k < |slots| :: r[k] == OldMac(main, slots[k].0, slots[k].1)
  {
    if slots == [] then []
    else
      var (f, i) := slots[|slots| - 1];
      OldMacs(main, slots[..|slots| - 1]) + [OldMac(main, f, i)]
  }

  /** `GenerateGluonMACsOld`: the MAC of every slot, function by function. */
  method GenerateGluonMACsOld(mainMac: string) returns (macs: seq<string>)
    requires IsMac(mainMac)
    ensures macs == OldMacs(mainMac, Slots(MacRanges))
  {
    macs := MacsForRanges(mainMac, MacRanges);
  }

  /** The outer loop of the old scheme, over any table of ranges. */
  method MacsForRanges(mainMac: string, ranges: seq<(nat, nat)>) returns (macs: seq<string>)
    requires IsMac(mainMac)
    ensures macs == OldMacs(mainMac, Slots(ranges))
  {
    macs := [];
    var j := 0;
    while j < |ranges|
      invariant 0 <= j <= |ranges|
      invariant macs == OldMacs(mainMac, Slots(ranges[..j]))
    {
      var (f, top) := ranges[j];
      var run := MacsForRun(mainMac, f, top + 1);
      SlotsStep(ranges, j + 1);
      OldMacsAppend(mainMac, Slots(ranges[..j]), Run(f, top + 1));
      macs := macs + run;
      j := j + 1;
    }
    assert ranges[..|ranges|] == ranges;
  }

  /** The inner loop of the old scheme: the MACs of function `f` for instances `0` to `count - 1`. */
  method MacsForRun(mainMac: string, f: nat, count: nat) returns (run: seq<string>)
    requires IsMac(mainMac)
    ensures run == OldMacs(mainMac, Run(f, count))
  {
    run := [];
    var i := 0;
    while i < count
      invariant 0 <= i <= count
      invariant run == OldMacs(mainMac, Run(f, i))
    {
      OldMacsStep(mainMac, [], f, i);
      assert [] + Run(f, i) == Run(f, i) && [] + Run(f, i + 1) == Run(f, i + 1);
      run := run + [OldMac(mainMac, f, i)];
      i := i + 1;
    }
  }

  /** The MACs of two lists of slots, one after the other. */
  lemma OldMacsAppend(main: string, a: seq<(nat, nat)>, b: seq<(nat, nat)>)
    requires IsMac(main)
    ensures OldMacs(main, a + b) == OldMacs(main, a) + OldMacs(main, b)
  {
    var ma, mb := OldMacs(main, a), OldMacs(main, b);
    var l, r := OldMacs(main, a + b), ma + mb;
    forall k | 0 <= k < |l| ensures l[k] == r[k] {
      if k < |a| {
        assert (a + b)[k] == a[k] && r[k] == ma[k];
      } else {
        assert (a + b)[k] == b[k - |a|] && r[k] == mb[k - |a|];
      }
    }
  }

  /** One more index `i` of function `f` adds its MAC at the end. */
  lemma OldMacsStep(main: string, done: seq<(nat, nat)>, f: nat, i: nat)
    requires IsMac(main)
    ensures OldMacs(main, done + Run(f, i + 1)) == OldMacs(main, done + Run(f, i)) + [OldMac(main, f, i)]
  {
    OldMacsSnoc(main, done + Run(f, i), (f, i));
    assert done + Run(f, i + 1) == (done + Run(f, i)) + [(f, i)];
  }

  /** The MACs of one more slot follow those of the slots before it. */
  lemma OldMacsSnoc(main: string, slots: seq<(nat, nat)>, x: (nat, nat))
    requires IsMac(main)
    ensures OldMacs(main, slots + [x]) == OldMacs(main, slots) + [OldMac(main, x.0, x.1)]
  {
    assert (slots + [x])[..|slots|] == slots;
  }

  /**
   * The old scheme yields twelve different MACs, all locally administered, all keeping octets 3 to 5 of the
   * primary MAC.
   */
  lemma OldMacsDistinct(main: string)
    requires IsMac(main)
    ensures var macs := OldMacs(main, Slots(MacRanges));
      && |macs| == 12
      && (forall k | 0 <= k < 12 :: IsMac(macs[k]) && Octet(macs[k], 0) == OldFirst(main) && macs[k][8..] == main[8..])
      && (forall a, b | 0 <= a < b < 12 :: macs[a] != macs[b])
  {
    SlotsOfRanges();
    var s := Slots(MacRanges);
    var macs := OldMacs(main, s);
    SlotsAscending(MacRanges);
    SlotsBounded(MacRanges, 256);
    forall k | 0 <= k < 12 ensures IsMac(macs[k]) && Octet(macs[k], 0) == OldFirst(main) && macs[k][8..] == main[8..] {
      OldMacOctets(main, s[k].0, s[k].1);
    }
    forall a, b | 0 <= a < b < 12 ensures macs[a] != macs[b] {
      OldMacInjective(main, s[a].0, s[a].1, s[b].0, s[b].1);
    }
  }

  /** Slot `x` comes before slot `y`: a smaller function, or the same function and a smaller index. */
  predicate Before(x: (nat, nat), y: (nat, nat)) {
    x.0 < y.0 || (x.0 == y.0 && x.1 < y.1)
  }

  /** Slots in strictly increasing order, hence without repetition. */
  predicate Ascending(s: seq<(nat, nat)>) {
    forall a, b | 0 <= a < b < |s| :: Before(s[a], s[b])
  }

  /** Ranges whose functions strictly increase, as the keys of `MacRanges` do, give strictly ordered slots. */
  lemma {:induction false} SlotsAscending(ranges: seq<(nat, nat)>)
    requires forall a, b | 0 <= a < b < |ranges| :: ranges[a].0 < ranges[b].0
    ensures Ascending(Slots(ranges))
  {
    if ranges != [] {
      var init := ranges[..|ranges| - 1];
      var (f, top) := ranges[|ranges| - 1];
      forall a, b | 0 <= a < b < |init| ensures init[a].0 < init[b].0 {
        assert init[a] == ranges[a] && init[b] == ranges[b];
      }
      forall a | 0 <= a < |init| ensures init[a].0 < f {
        assert init[a] == ranges[a];
      }
      SlotsAscending(init);
      SlotsKeysBelow(init, f);
      AscendingRun(Slots(init), f, top + 1);
    }
  }

  /** Keys below `f` in the ranges stay below `f` in the slots. */
  lemma {:induction false} SlotsKeysBelow(ranges: seq<(nat, nat)>, f: nat)
    requires forall k | 0 <= k < |ranges| :: ranges[k].0 < f
    ensures forall k | 0 <= k < |Slots(ranges)| :: Slots(ranges)[k].0 < f
  {
    if ranges != [] {
      SlotsKeysBelow(ranges[..|ranges| - 1], f);
    }
  }

  /** Ordered slots of functions below `f`, followed by the slots of `f`, are ordered. */
  lemma AscendingRun(s0: seq<(nat, nat)>, f: nat, n: nat)
    requires Ascending(s0) && forall k | 0 <= k < |s0| :: s0[k].0 < f
    ensures Ascending(s0 + Run(f, n))
  {
    var s := s0 + Run(f, n);
    forall a, b | 0 <= a < b < |s| ensures Before(s[a], s[b]) {
      if b < |s0| {
        assert s[a] == s0[a] && s[b] == s0[b];
      } else if a < |s0| {
        assert s[a] == s0[a] && s[b] == (f, b - |s0|);
      } else {
        assert s[a] == (f, a - |s0|) && s[b] == (f, b - |s0|);
      }
    }
  }

  /** Ranges whose functions and bounds are below `bound` give slots below `bound`. */
  lemma {:induction false} SlotsBounded(ranges: seq<(nat, nat)>, bound: nat)
    requires forall k | 0 <= k < |ranges| :: ranges[k].0 < bound && ranges[k].1 < bound
    ensures forall k | 0 <= k < |Slots(ranges)| :: Slots(ranges)[k].0 < bound && Slots(ranges)[k].1 < bound
  {
    if ranges != [] {
      SlotsBounded(ranges[..|ranges| - 1], bound);
    }
  }

  /** Two slots whose numbers are below 256 get the same MAC only when they are the same slot. */
  lemma OldMacInjective(main: string, f: nat, i: nat, g: nat, j: nat)
    requires IsMac(main) && f < 256 && i < 256 && g < 256 && j < 256
    ensures OldMac(main, f, i) == OldMac(main, g, j) <==> f == g && i == j
  {
    if OldMac(main, f, i) == OldMac(main, g, j) {
      OldMacOctets(main, f, i);
      OldMacOctets(main, g, j);
      AddModInjective(Octet(main, 1), f, g);
      AddModInjective(Octet(main, 2), i, j);
    }
  }

  /** Adding two different numbers below 256 to an octet, modulo 256, gives different octets. */
  lemma AddModInjective(o: nat, f: nat, g: nat)
    requires o < 256 && f < 256 && g < 256
    ensures (o + f) % 256 == (o + g) % 256 ==> f == g
  {
    assert (o + f) % 256 == if o + f < 256 then o + f else o + f - 256;
    assert (o + g) % 256 == if o + g < 256 then o + g else o + g - 256;
  }

  /** The md5 hex digest starts with twelve hexadecimal digits. */
  predicate HexDigest(digest: string) {
    |digest| >= 12 && forall k | 0 <= k < 12 :: IsHexDigit(digest[k])
  }

  /** Octet `k` of the digest's first twelve digits, as `int(digest[2k:2k+2], 16)` reads it. */
  function DigestOctet(digest: string, k: nat): (v: nat)
    requires HexDigest(digest) && k < 6
    ensures v < 256
  {
    Pair(digest[2 * k], digest[2 * k + 1])
  }

  /** The first octet of the new scheme: the digest's first octet, locally administered and unicast. */
  function NewFirst(digest: string): (v: nat)
    requires HexDigest(digest)
    ensures v < 256 && v == 4 * (DigestOctet(digest, 0) / 4) + 2
  {
    var o := DigestOctet(digest, 0);
    OrTwo(o);
    AndFE(BitOr(o, 2));
    assert BitOr(o, 2) / 2 == 2 * (o / 4) + 1;
    BitAnd(BitOr(DigestOctet(digest, 0), 2), 0xfe)
  }

  /** The digest's sixth octet with its three low bits cleared, room for eight interface numbers. */
  function NewBase(digest: string): (v: nat)
    requires HexDigest(digest)
    ensures v + 7 < 256 && v == 8 * (DigestOctet(digest, 5) / 8)
  {
    AndF8(DigestOctet(digest, 5));
    BitAnd(DigestOctet(digest, 5), 0xf8)
  }

  /** The text every MAC of the new scheme starts with: octets 0 to 4 and a colon after each. */
  function NewPrefix(digest: string): (r: string)
    requires HexDigest(digest)
  {
    Hex2(NewFirst(digest)) + ":" + digest[2..4] + ":" + digest[4..6] + ":" + digest[6..8] + ":" + digest[8..10] + ":"
  }

  /** The new scheme's MAC for interface `i`: the shared prefix and the last octet. */
  function NewMac(digest: string, i: nat): string
    requires HexDigest(digest) && i < 8
  {
    NewPrefix(digest) + Hex2(NewBase(digest) + i)
  }

  /** Octets 1 to 4 of the prefix are copied from the digest. */
  lemma PrefixOctet(digest: string, k: nat)
    requires HexDigest(digest) && 1 <= k < 5
    ensures var p := NewPrefix(digest); |p| == 15 && p[3 * k] == digest[2 * k] && p[3 * k + 1] == digest[2 * k + 1]
  {
    NewPrefixChars(digest);
    if k == 1 {
    } else if k == 2 {
    } else if k == 3 {
    } else {
    }
  }

  /** The new scheme's MAC is the shared prefix followed by two hexadecimal digits. */
  lemma NewMacShape(digest: string, i: nat)
    requires HexDigest(digest) && i < 8
    ensures var r, e := NewMac(digest, i), Hex2(NewBase(digest) + i);
      && IsMac(r) && r[..15] == NewPrefix(digest) && r[15] == e[0] && r[16] == e[1]
      && Octet(r, 0) == NewFirst(digest) && Octet(r, 5) == NewBase(digest) + i
  {
    var p, e := NewPrefix(digest), Hex2(NewBase(digest) + i);
    var r := NewMac(digest, i);
    NewPrefixChars(digest);
    assert forall k | 0 <= k < 15 :: r[k] == p[k];
    assert r[..15] == p;
    assert r[15] == e[0] && r[16] == e[1];
  }

  /**
   * The new scheme's MAC for interface `i` is a MAC: octet 0 from `NewFirst`, octets 1 to 4 copied from the
   * digest, and octet 5 the digest's sixth octet with `i` in its three low bits.
   */
  lemma NewMacOctets(digest: string, i: nat)
    requires HexDigest(digest) && i < 8
    ensures var r := NewMac(digest, i);
      && IsMac(r) && r[..15] == NewPrefix(digest)
      && Octet(r, 0) == NewFirst(digest) && Octet(r, 5) == NewBase(digest) + i
      && forall k | 1 <= k < 5 :: Octet(r, k) == DigestOctet(digest, k)
  {
    var r := NewMac(digest, i);
    NewMacShape(digest, i);
    forall k | 1 <= k < 5 ensures Octet(r, k) == DigestOctet(digest, k) {
      PrefixOctet(digest, k);
      assert r[3 * k] == r[..15][3 * k] && r[3 * k + 1] == r[..15][3 * k + 1];
    }
  }

  /** The shared prefix is five octets, each followed by a colon: the first from `NewFirst`, then digest octets 1 to 4. */
  lemma NewPrefixChars(digest: string)
    requires HexDigest(digest)
    ensures var p, a := NewPrefix(digest), Hex2(NewFirst(digest));
      && |p| == 15 && p[0] == a[0] && p[1] == a[1]
      && p[2] == ':' && p[5] == ':' && p[8] == ':' && p[11] == ':' && p[14] == ':'
      && p[3] == digest[2] && p[4] == digest[3] && p[6] == digest[4] && p[7] == digest[5]
      && p[9] == digest[6] && p[10] == digest[7] && p[12] == digest[8] && p[13] == digest[9]
  {
  }

  /** `GenerateGluonMACsNew`, given the md5 hex digest of the primary MAC: the MACs of interfaces 0 to 7. */
  method GenerateGluonMACsNew(digest: string) returns (macs: seq<string>)
    requires HexDigest(digest)
    ensures |macs| == 8 && forall i | 0 <= i < 8 :: macs[i] == NewMac(digest, i)
  {
    var m1New := Hex2(NewFirst(digest));
    var m1to5New := m1New + ":" + digest[2..4] + ":" + digest[4..6] + ":" + digest[6..8] + ":" + digest[8..10] + ":";
    macs := [];
    var i := 0;
    while i < 8
      invariant 0 <= i <= 8
      invariant |macs| == i && forall k | 0 <= k < i :: macs[k] == NewMac(digest, k)
    {
      macs := macs + [m1to5New + Hex2(NewBase(digest) + i)];
      i := i + 1;
    }
  }

  /** The eight MACs of the new scheme differ exactly in their interface numbers and share their first five octets. */
  lemma NewMacsDistinct(digest: string, i: nat, j: nat)
    requires HexDigest(digest) && i < 8 && j < 8
    ensures NewMac(digest, i) == NewMac(digest, j) <==> i == j
    ensures NewMac(digest, i)[..15] == NewMac(digest, j)[..15]
  {
    NewMacOctets(digest, i);
    NewMacOctets(digest, j);
  }
}
