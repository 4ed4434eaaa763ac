/** `nextAvailableOctet` of `internal/peers/peers.go`, and the addresses it reads. */
module Octets {
  import opened Wrappers
  import opened Text
  import opened WgConfig
  import opened Prefixes
  import Decimal

  // ---- the addresses handed out ----

  /** The address of the server itself, as the installer writes it. */
  const SERVER_ADDRESS := "10.100.0.1/24"

  /** The address given to octet `n`. */
  function AddressOf(n: nat): string {
    "10.100.0." + Decimal.FormatNat(n)
  }

  lemma FieldOfFormat(n: nat)
    requires n <= 255
    ensures Field(Decimal.FormatNat(n)) == Some(n) && '.' !in Decimal.FormatNat(n) && '/' !in Decimal.FormatNat(n)
  {
    Decimal.ValueOfFormat(n);
    assert Decimal.Ten(3) == 1000;
    if n < 10 {
      assert Decimal.Ten(1) == 10;
    }
    assert !Decimal.IsDigit('.') && !Decimal.IsDigit('/');
  }

  lemma SplitPrefix(digits: string)
    requires '.' !in digits
    ensures Split("10.100.0." + digits, '.') == ["10", "100", "0", digits]
  {
    hide Split;
    assert "10.100.0." + digits == "10" + ['.'] + ("100" + ['.'] + ("0" + ['.'] + digits));
    SplitConcat("10", '.', "100" + ['.'] + ("0" + ['.'] + digits));
    SplitConcat("100", '.', "0" + ['.'] + digits);
    SplitConcat("0", '.', digits);
    SplitWhole("10", '.');
    SplitWhole("100", '.');
    SplitWhole("0", '.');
    SplitWhole(digits, '.');
  }

  const SUBNET := 0x0A64_0000

  lemma PrefixFields()
    ensures Field("10") == Some(10) && Field("100") == Some(100) && Field("0") == Some(0)
    ensures IsMask("32", 32) && ReadBits("32", 32) == Some(32)
  {
    assert "10"[..1] == "1" && "100"[..2] == "10" && "32"[..1] == "3";
    assert "1"[..0] == "" && "0"[..0] == "" && "3"[..0] == "";
    assert Decimal.DigitsValue("3") == 3 && Decimal.DigitsValue("1") == 1 && Decimal.DigitsValue("10") == 10;
  }

  lemma AddressReads(n: nat)
    requires n <= 255
    ensures ReadAddr(AddressOf(n)) == Some(V4(SUBNET + n)) && '/' !in AddressOf(n)
  {
    hide Split, Field;
    FieldOfFormat(n);
    SplitPrefix(Decimal.FormatNat(n));
    PrefixFields();
    assert '/' !in "10.100.0.";
    var s := AddressOf(n);
    assert Notation(s[2..]) == Some('.');
    assert s[1..][1..] == s[2..] && Notation(s[1..]) == Notation(s[2..]);
    assert ReadDotted(s) == Some(SUBNET + n);
  }

  /** The address handed out for an octet reads back as that octet, and is a host of its own to the device. */
  lemma OctetOfAddress(n: nat)
    requires n <= 255
    ensures LastOctet(AddressOf(n) + "/32") == Some(n)
    ensures ReadPrefix(AddressOf(n) + "/32") == Some(Net4(SUBNET + n, 32))
  {
    hide ReadAddr, IndexOf, LastIndexOf, IsMask, ReadBits, AddressOf;
    var cidr := AddressOf(n) + "/32";
    AddressReads(n);
    PrefixFields();
    assert cidr == AddressOf(n) + ['/'] + "32";
    IndexOfAt(AddressOf(n), '/', "32");
    LastIndexAt(AddressOf(n), '/', "32");
    assert cidr[..|AddressOf(n)|] == AddressOf(n) && cidr[|AddressOf(n)| + 1..] == "32";
  }

  // ---- the octets in use ----

  /** The octets of the well-formed entries of a list; the others are skipped. */
  function OctetsIn(cidrs: seq<string>): set<nat> {
    if cidrs == [] then {}
    else OctetsIn(cidrs[..|cidrs| - 1]) + OctetAt(cidrs[|cidrs| - 1])
  }

  function OctetAt(cidr: string): set<nat> {
    if LastOctet(cidr).Some? then {LastOctet(cidr).value} else {}
  }

  function UsedBy(peers: seq<PeerConfig>): set<nat> {
    if peers == [] then {} else UsedBy(peers[..|peers| - 1]) + OctetsIn(peers[|peers| - 1].allowedIPs)
  }

  const SERVER_OCTET: nat := 1

  function CidrCount(peers: seq<PeerConfig>): nat {
    if peers == [] then 0 else CidrCount(peers[..|peers| - 1]) + |peers[|peers| - 1].allowedIPs|
  }

  lemma {:induction false} OctetsBound(cidrs: seq<string>)
    ensures |OctetsIn(cidrs)| <= |cidrs|
  {
    hide LastOctet;
    if cidrs != [] {
      OctetsBound(cidrs[..|cidrs| - 1]);
      UnionBound(OctetsIn(cidrs[..|cidrs| - 1]), OctetAt(cidrs[|cidrs| - 1]));
    }
  }

  lemma UnionBound(a: set<nat>, b: set<nat>)
    ensures |a + b| <= |a| + |b|
  {
  }

  lemma {:induction false} UsedBound(peers: seq<PeerConfig>)
    ensures |UsedBy(peers)| <= CidrCount(peers)
  {
    hide OctetsIn;
    if peers != [] {
      var front, last := peers[..|peers| - 1], peers[|peers| - 1];
      UsedBound(front);
      OctetsBound(last.allowedIPs);
      UnionBound(UsedBy(front), OctetsIn(last.allowedIPs));
    }
  }

  lemma {:induction false} OctetsMember(cidrs: seq<string>, cidr: string)
    requires cidr in cidrs && LastOctet(cidr).Some?
    ensures LastOctet(cidr).value in OctetsIn(cidrs)
  {
    hide LastOctet;
    var front := cidrs[..|cidrs| - 1];
    if cidr != cidrs[|cidrs| - 1] {
      assert cidrs == front + [cidrs[|cidrs| - 1]];
      OctetsMember(front, cidr);
    }
  }

  lemma {:induction false} UsedMember(peers: seq<PeerConfig>, i: nat, cidr: string)
    requires i < |peers| && cidr in peers[i].allowedIPs && LastOctet(cidr).Some?
    ensures LastOctet(cidr).value in UsedBy(peers)
  {
    hide LastOctet, OctetsIn;
    if i == |peers| - 1 {
      OctetsMember(peers[i].allowedIPs, cidr);
    } else {
      assert peers[..|peers| - 1][i] == peers[i];
      UsedMember(peers[..|peers| - 1], i, cidr);
    }
  }

  /** The octet chosen: the least free one from 2 to 254, or 254 when there is none. */
  ghost predicate Chosen(used: set<nat>, octet: nat) {
    && 2 <= octet <= 254
    && (forall k {:trigger k in used} :: 2 <= k < octet ==> k in used)
    && (octet in used ==> octet == 254)
  }

  /** The choice is determined by the octets in use. */
  function NextOctet(used: set<nat>): nat {
    FirstFree(used, 2)
  }

  function FirstFree(used: set<nat>, from: nat): nat
    decreases 254 - from
  {
    if from >= 254 then 254 else if from !in used then from else FirstFree(used, from + 1)
  }

  lemma {:induction false} FirstFreeChosen(used: set<nat>, from: nat)
    requires 2 <= from <= 254 && forall k {:trigger k in used} :: 2 <= k < from ==> k in used
    ensures Chosen(used, FirstFree(used, from))
    decreases 254 - from
  {
    if from < 254 && from in used {
      FirstFreeChosen(used, from + 1);
    }
  }

  lemma ChosenIsNext(used: set<nat>, octet: nat)
    ensures Chosen(used, octet) <==> octet == NextOctet(used)
  {
    FirstFreeChosen(used, 2);
    var next := NextOctet(used);
    if Chosen(used, octet) {
      assert next < octet ==> next in used;
      assert octet < next ==> octet in used;
    }
  }

  /** Some octet from 2 to 254 is unused. */
  ghost predicate PoolOpen(used: set<nat>) {
    exists k {:trigger k in used} :: 2 <= k <= 254 && k !in used
  }

  /** The octet handed out is a free one exactly while there is one; after that it is 254, whoever has it. */
  lemma FreeWhileOpen(used: set<nat>)
    ensures NextOctet(used + {SERVER_OCTET}) !in used <==> PoolOpen(used)
    ensures !PoolOpen(used) ==> NextOctet(used + {SERVER_OCTET}) == 254 && 254 in used
  {
    hide FirstFree;
    var octet := NextOctet(used + {SERVER_OCTET});
    FirstFreeChosen(used + {SERVER_OCTET}, 2);
    if octet in used {
      forall k | 2 <= k <= 254 ensures k in used {
        assert k < octet ==> k in used + {SERVER_OCTET};
      }
    }
  }

  function Interval(lo: nat, hi: nat): (r: set<nat>)
    requires lo <= hi
    ensures forall k :: k in r <==> lo <= k < hi
    ensures |r| == hi - lo
    decreases hi - lo
  {
    if lo == hi then {} else {lo} + Interval(lo + 1, hi)
  }

  /** Pigeonhole: with at most 252 addresses listed the pool is open, and the octet is among the first few. */
  lemma OctetBound(peers: seq<PeerConfig>)
    requires CidrCount(peers) <= 252
    ensures PoolOpen(UsedBy(peers))
    ensures 2 <= NextOctet(UsedBy(peers) + {SERVER_OCTET}) <= CidrCount(peers) + 2
  {
    hide FirstFree, UsedBy, CidrCount;
    UsedBound(peers);
    FirstFreeChosen(UsedBy(peers) + {SERVER_OCTET}, 2);
    FreeWhileOpen(UsedBy(peers));
    ChosenBound(UsedBy(peers), NextOctet(UsedBy(peers) + {SERVER_OCTET}), CidrCount(peers));
  }

  lemma ChosenBound(used: set<nat>, octet: nat, n: nat)
    requires Chosen(used + {SERVER_OCTET}, octet) && |used| <= n <= 252
    ensures octet !in used && 2 <= octet <= n + 2
  {
    hide Interval;
    var lo, hi := 2, if octet in used then octet + 1 else octet;
    var taken := Interval(lo, hi);
    assert taken <= used by {
      forall k | k in taken ensures k in used {
        assert k < octet ==> k in used + {SERVER_OCTET};
      }
    }
    SubsetBound(taken, used);
  }

  lemma SubsetBound(a: set<nat>, b: set<nat>)
    requires a <= b
    ensures |a| <= |b|
  {
    assert b == a + (b - a);
  }

  // ---- octets of one's own ----

  /** No two peers share a last octet, and none has the server's. */
  predicate OctetsApart(peers: seq<PeerConfig>) {
    && (forall i, j :: 0 <= i < j < |peers| ==> OctetsIn(peers[i].allowedIPs) !! OctetsIn(peers[j].allowedIPs))
    && (forall i :: 0 <= i < |peers| ==> SERVER_OCTET !in OctetsIn(peers[i].allowedIPs))
  }

  lemma {:induction false} UsedMeans(peers: seq<PeerConfig>, octet: nat)
    ensures octet in UsedBy(peers) <==> exists i :: 0 <= i < |peers| && octet in OctetsIn(peers[i].allowedIPs)
  {
    hide OctetsIn;
    if peers != [] {
      var front := peers[..|peers| - 1];
      UsedMeans(front, octet);
      assert forall i :: 0 <= i < |front| ==> front[i] == peers[i];
    }
  }

  lemma OctetsOfOne(cidr: string)
    requires LastOctet(cidr).Some?
    ensures OctetsIn([cidr]) == {LastOctet(cidr).value}
  {
  }

  /** One peer more with one octet: still apart exactly if nobody, nor the server, has that octet. */
  lemma ApartPlus(peers: seq<PeerConfig>, p: PeerConfig, octet: nat)
    requires OctetsApart(peers) && OctetsIn(p.allowedIPs) == {octet}
    ensures OctetsApart(peers + [p]) <==> octet !in UsedBy(peers) + {SERVER_OCTET}
  {
    hide OctetsIn, UsedBy;
    var all := peers + [p];
    UsedMeans(peers, octet);
    assert all[|peers|] == p;
    if octet !in UsedBy(peers) + {SERVER_OCTET} {
      forall i, j | 0 <= i < j < |all| ensures OctetsIn(all[i].allowedIPs) !! OctetsIn(all[j].allowedIPs) {
        assert j < |peers| ==> all[j] == peers[j];
      }
    } else if octet != SERVER_OCTET {
      var i :| 0 <= i < |peers| && octet in OctetsIn(peers[i].allowedIPs);
      assert all[i] == peers[i] && octet in OctetsIn(all[i].allowedIPs) && octet in OctetsIn(all[|peers|].allowedIPs);
    }
  }

  /** Two loops: collect the octets in use, then take the first one that is free. */
  method NextAvailableOctet(cfg: Config) returns (octet: nat)
    ensures octet == NextOctet(UsedBy(cfg.peers) + {SERVER_OCTET})
  {
    hide LastOctet, NextOctet;
    var used := {SERVER_OCTET};
    for i := 0 to |cfg.peers|
      invariant used == UsedBy(cfg.peers[..i]) + {SERVER_OCTET}
    {
      var cidrs := cfg.peers[i].allowedIPs;
      ghost var before := used;
      for j := 0 to |cidrs|
        invariant used == before + OctetsIn(cidrs[..j])
      {
        assert cidrs[..j + 1][..j] == cidrs[..j];
        var last := LastOctet(cidrs[j]);
        if last.Some? {
          used := used + {last.value};
        }
      }
      assert cidrs[..|cidrs|] == cidrs;
      assert cfg.peers[..i + 1][..i] == cfg.peers[..i];
    }
    assert cfg.peers[..|cfg.peers|] == cfg.peers;
    for i := 2 to 255
      invariant forall k {:trigger k in used} :: 2 <= k < i ==> k in used
    {
      if i !in used {
        ChosenIsNext(used, i);
        return i;
      }
    }
    assert Chosen(used, 254);
    ChosenIsNext(used, 254);
    return 254;
  }
}
