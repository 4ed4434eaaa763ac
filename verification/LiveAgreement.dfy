/** When changing the running device one peer at a time gives what a restart from the changed file would give. */
module LiveAgreement {
  import opened Wrappers
  import opened KeyCodec
  import opened WgConfig
  import opened Prefixes
  import opened Uapi
  import opened WgServer
  import opened ConfAppend

  predicate AllKeysDecode(peers: seq<PeerConfig>) {
    forall i :: 0 <= i < |peers| ==> KeysDecode(peers[i])
  }

  /** No two peers have the same key on the device. */
  predicate UniqueKeys(peers: seq<PeerConfig>) {
    forall i, j :: 0 <= i < j < |peers| ==> HexOf(peers[i]) != HexOf(peers[j])
  }

  function Keys(peers: seq<PeerConfig>): set<string> {
    set i | 0 <= i < |peers| :: HexOf(peers[i])
  }

  predicate Listed(peers: seq<PeerConfig>, net: Net) {
    exists i :: 0 <= i < |peers| && net in Nets(peers[i].allowedIPs)
  }

  /** No network is listed by two peers. */
  predicate DisjointAddresses(peers: seq<PeerConfig>) {
    forall i, j, net :: 0 <= i < j < |peers| && net in Nets(peers[i].allowedIPs) ==> net !in Nets(peers[j].allowedIPs)
  }

  // ---- the routes of a freshly configured device ----

  /** The last peer that lists the network. */
  function Owner(peers: seq<PeerConfig>, net: Net): Option<string> {
    if peers == [] then None
    else if net in Nets(peers[|peers| - 1].allowedIPs) then Some(HexOf(peers[|peers| - 1]))
    else Owner(peers[..|peers| - 1], net)
  }

  function RouteOf(dev: Device, net: Net): Option<string> {
    if net in dev.routes then Some(dev.routes[net]) else None
  }

  lemma {:induction false} OwnerConcat(a: seq<PeerConfig>, b: seq<PeerConfig>, net: Net)
    ensures Owner(a + b, net) == if Owner(b, net).Some? then Owner(b, net) else Owner(a, net)
    decreases |b|
  {
    hide Nets, HexOf;
    if b == [] {
      assert a + b == a;
    } else {
      assert (a + b)[..|a + b| - 1] == a + b[..|b| - 1];
      OwnerConcat(a, b[..|b| - 1], net);
    }
  }

  lemma {:induction false} OwnerIsListed(peers: seq<PeerConfig>, net: Net)
    ensures Owner(peers, net).Some? <==> Listed(peers, net)
    ensures Owner(peers, net).Some? ==> Owner(peers, net).value in Keys(peers)
  {
    hide Nets, HexOf;
    if peers != [] {
      var front := peers[..|peers| - 1];
      OwnerIsListed(front, net);
      if Listed(peers, net) && net !in Nets(peers[|peers| - 1].allowedIPs) {
        var i :| 0 <= i < |peers| && net in Nets(peers[i].allowedIPs);
        assert net in Nets(front[i].allowedIPs);
      }
      assert forall i :: 0 <= i < |front| ==> front[i] == peers[i];
    }
  }

  lemma {:induction false} ConfigureAllSnoc(dev: Device, peers: seq<PeerConfig>, p: PeerConfig)
    requires AllKeysDecode(peers) && KeysDecode(p)
    ensures AllKeysDecode(peers + [p])
    ensures ConfigureAll(dev, peers + [p]) == Configure(ConfigureAll(dev, peers), p)
    decreases |peers|
  {
    hide Configure, KeysDecode;
    if peers == [] {
      assert peers + [p] == [p] && [p][1..] == [];
    } else {
      ConfigureAllSnoc(Configure(dev, peers[0]), peers[1..], p);
      assert (peers + [p])[1..] == peers[1..] + [p];
    }
  }

  function PeerSettings(peers: seq<PeerConfig>, hex: string): Option<DevicePeer>
    requires AllKeysDecode(peers)
  {
    if peers == [] then None
    else
      var last := peers[|peers| - 1];
      if HexOf(last) == hex then Some(Settings(BLANK_PEER, last)) else PeerSettings(peers[..|peers| - 1], hex)
  }

  ghost predicate Described(dev: Device, bare: Device, peers: seq<PeerConfig>)
    requires AllKeysDecode(peers)
  {
    && dev.privateKey == bare.privateKey
    && dev.listenPort == bare.listenPort
    && (forall hex :: hex in dev.peers <==> hex in Keys(peers))
    && (forall hex :: hex in dev.peers ==> PeerSettings(peers, hex) == Some(dev.peers[hex]))
    && (forall net :: RouteOf(dev, net) == Owner(peers, net))
  }

  lemma DescribedSnoc(dev: Device, bare: Device, peers: seq<PeerConfig>, p: PeerConfig)
    requires AllKeysDecode(peers) && KeysDecode(p) && Described(dev, bare, peers) && HexOf(p) !in Keys(peers)
    ensures AllKeysDecode(peers + [p]) && Described(Configure(dev, p), bare, peers + [p])
  {
    hide Nets, HexOf, KeysDecode, Settings;
    var all, next := peers + [p], Configure(dev, p);
    assert all[..|all| - 1] == peers;
    forall hex ensures hex in next.peers <==> hex in Keys(all) {
      assert all[|peers|] == p;
      if hex in Keys(peers) {
        var i :| 0 <= i < |peers| && hex == HexOf(peers[i]);
        assert hex == HexOf(all[i]);
      }
    }
    forall net ensures RouteOf(next, net) == Owner(all, net) {
      OwnerIsListed(peers, net);
      assert RouteOf(dev, net) == Owner(peers, net);
    }
  }

  /** A device configured from scratch: every peer with its own settings, every network with its last lister. */
  lemma {:induction false} ConfiguredDevice(bare: Device, peers: seq<PeerConfig>)
    requires AllKeysDecode(peers) && UniqueKeys(peers) && bare.peers == map[] && bare.routes == map[]
    ensures Described(ConfigureAll(bare, peers), bare, peers)
    decreases |peers|
  {
    hide Nets, HexOf, KeysDecode, Settings, Configure;
    if peers != [] {
      var front, last := peers[..|peers| - 1], peers[|peers| - 1];
      assert peers == front + [last];
      ConfiguredDevice(bare, front);
      ConfigureAllSnoc(bare, front, last);
      DescribedSnoc(ConfigureAll(bare, front), bare, front, last);
    }
  }

  lemma DescribedUnique(d1: Device, d2: Device, bare: Device, peers: seq<PeerConfig>)
    requires AllKeysDecode(peers) && Described(d1, bare, peers) && Described(d2, bare, peers)
    ensures d1 == d2
  {
    hide Nets, HexOf, KeysDecode, Settings;
    assert d1.peers == d2.peers by {
      forall hex ensures hex in d1.peers <==> hex in d2.peers
                 ensures hex in d1.peers ==> d1.peers[hex] == d2.peers[hex]
      {
        assert hex in d1.peers ==> PeerSettings(peers, hex) == Some(d1.peers[hex]);
        assert hex in d2.peers ==> PeerSettings(peers, hex) == Some(d2.peers[hex]);
      }
    }
    assert d1.routes == d2.routes by {
      forall net ensures net in d1.routes <==> net in d2.routes
                  ensures net in d1.routes ==> d1.routes[net] == d2.routes[net] {
        assert RouteOf(d1, net) == RouteOf(d2, net) == Owner(peers, net);
      }
    }
  }

  // ---- removing a peer ----

  lemma {:induction false} SettingsConcat(a: seq<PeerConfig>, b: seq<PeerConfig>, hex: string)
    requires AllKeysDecode(a) && AllKeysDecode(b)
    ensures AllKeysDecode(a + b)
    ensures PeerSettings(a + b, hex) ==
            if PeerSettings(b, hex).Some? then PeerSettings(b, hex) else PeerSettings(a, hex)
    decreases |b|
  {
    hide Nets, HexOf, Settings, KeysDecode;
    if b == [] {
      assert a + b == a;
    } else {
      assert (a + b)[..|a + b| - 1] == a + b[..|b| - 1];
      SettingsConcat(a, b[..|b| - 1], hex);
    }
  }

  lemma KeysConcat(a: seq<PeerConfig>, b: seq<PeerConfig>)
    ensures Keys(a + b) == Keys(a) + Keys(b)
  {
    hide Nets, HexOf;
    forall hex | hex in Keys(a) + Keys(b) ensures hex in Keys(a + b) {
      if hex in Keys(a) {
        var i :| 0 <= i < |a| && hex == HexOf(a[i]);
        assert hex == HexOf((a + b)[i]);
      } else {
        var i :| 0 <= i < |b| && hex == HexOf(b[i]);
        assert hex == HexOf((a + b)[|a| + i]);
      }
    }
  }

  /** `p` stands between `a` and `b` in a list of unique keys. */
  predicate KeyApart(a: seq<PeerConfig>, p: PeerConfig, b: seq<PeerConfig>) {
    HexOf(p) !in Keys(a) && HexOf(p) !in Keys(b) && UniqueKeys(a + b)
  }

  lemma UniqueApart(a: seq<PeerConfig>, p: PeerConfig, b: seq<PeerConfig>)
    requires UniqueKeys(a + [p] + b)
    ensures KeyApart(a, p, b)
  {
    hide Nets, HexOf;
    var all := a + [p] + b;
    assert all[|a|] == p;
    assert forall i :: 0 <= i < |a| ==> all[i] == a[i];
    assert forall i :: 0 <= i < |b| ==> all[|a| + 1 + i] == b[i];
    forall i, j | 0 <= i < j < |a + b| ensures HexOf((a + b)[i]) != HexOf((a + b)[j]) {
      assert (a + b)[i] == all[if i < |a| then i else i + 1];
      assert (a + b)[j] == all[if j < |a| then j else j + 1];
    }
  }

  /** The network is taken from an earlier lister by `p` and by nobody after it. */
  predicate Shadowed(a: seq<PeerConfig>, p: PeerConfig, b: seq<PeerConfig>, net: Net) {
    net in Nets(p.allowedIPs) && Listed(a, net) && !Listed(b, net)
  }

  lemma RemovedRoute(a: seq<PeerConfig>, p: PeerConfig, b: seq<PeerConfig>, net: Net)
    requires KeyApart(a, p, b)
    ensures var was := Owner(a + [p] + b, net);
            (if was == Some(HexOf(p)) then None else was) == Owner(a + b, net) <==> !Shadowed(a, p, b, net)
  {
    hide Nets, HexOf;
    OwnerConcat(a + [p], b, net);
    OwnerConcat(a, [p], net);
    OwnerConcat(a, b, net);
    OwnerIsListed(a, net);
    OwnerIsListed(b, net);
    assert [p][..0] == [];
  }

  lemma DroppedRoute(dev: Device, hex: string, net: Net)
    ensures RouteOf(DropPeer(dev, hex), net) == if RouteOf(dev, net) == Some(hex) then None else RouteOf(dev, net)
  {
  }

  lemma DroppedDescribed(dev: Device, bare: Device, a: seq<PeerConfig>, p: PeerConfig, b: seq<PeerConfig>)
    requires AllKeysDecode(a + [p] + b) && AllKeysDecode(a + b) && KeyApart(a, p, b)
    requires Described(dev, bare, a + [p] + b)
    ensures Described(DropPeer(dev, HexOf(p)), bare, a + b) <==> forall net :: !Shadowed(a, p, b, net)
  {
    hide Nets, HexOf, KeysDecode, Settings, Shadowed, Owner;
    var left := DropPeer(dev, HexOf(p));
    KeysConcat(a + [p], b);
    KeysConcat(a, [p]);
    KeysConcat(a, b);
    assert Keys([p]) == {HexOf(p)} by {
      assert [p][0] == p;
    }
    DroppedSettings(dev, bare, a, p, b);
    if forall net :: !Shadowed(a, p, b, net) {
      forall net ensures RouteOf(left, net) == Owner(a + b, net) {
        DroppedRoute(dev, HexOf(p), net);
        RemovedRoute(a, p, b, net);
        assert RouteOf(dev, net) == Owner(a + [p] + b, net);
      }
    }
    if Described(left, bare, a + b) {
      forall net ensures !Shadowed(a, p, b, net) {
        DroppedRoute(dev, HexOf(p), net);
        RemovedRoute(a, p, b, net);
        assert RouteOf(dev, net) == Owner(a + [p] + b, net);
        assert RouteOf(left, net) == Owner(a + b, net);
      }
    }
  }

  lemma DroppedSettings(dev: Device, bare: Device, a: seq<PeerConfig>, p: PeerConfig, b: seq<PeerConfig>)
    requires AllKeysDecode(a + [p] + b) && AllKeysDecode(a + b) && KeyApart(a, p, b)
    requires Described(dev, bare, a + [p] + b)
    ensures forall hex :: hex in dev.peers && hex != HexOf(p) ==> PeerSettings(a + b, hex) == Some(dev.peers[hex])
  {
    hide Nets, HexOf, KeysDecode, Settings, Owner;
    var all := a + [p] + b;
    assert AllKeysDecode(a) && AllKeysDecode(b) && AllKeysDecode([p]) && AllKeysDecode(a + [p]) by {
      assert all[|a|] == p;
      assert forall i :: 0 <= i < |a| ==> all[i] == a[i];
      assert forall i :: 0 <= i < |b| ==> all[|a| + 1 + i] == b[i];
    }
    forall hex | hex in dev.peers && hex != HexOf(p) ensures PeerSettings(a + b, hex) == Some(dev.peers[hex]) {
      SettingsConcat(a + [p], b, hex);
      SettingsConcat(a, [p], hex);
      SettingsConcat(a, b, hex);
      assert [p][..0] == [];
    }
  }

  /**
   * Taking a peer off the running device equals a restart without it if and only if every network it shares
   * with an earlier peer is also listed by a later one.
   */
  lemma RemoveAgreement(bare: Device, a: seq<PeerConfig>, p: PeerConfig, b: seq<PeerConfig>)
    requires bare.peers == map[] && bare.routes == map[]
    requires AllKeysDecode(a + [p] + b) && AllKeysDecode(a + b) && UniqueKeys(a + [p] + b)
    ensures DropPeer(ConfigureAll(bare, a + [p] + b), HexOf(p)) == ConfigureAll(bare, a + b) <==>
            forall net :: net in Nets(p.allowedIPs) && Listed(a, net) ==> Listed(b, net)
  {
    hide Nets, HexOf, KeysDecode, Described, Configure, Keys, UniqueKeys, Listed, DropPeer;
    UniqueApart(a, p, b);
    ConfiguredDevice(bare, a + [p] + b);
    ConfiguredDevice(bare, a + b);
    var left := DropPeer(ConfigureAll(bare, a + [p] + b), HexOf(p));
    DroppedDescribed(ConfigureAll(bare, a + [p] + b), bare, a, p, b);
    if Described(left, bare, a + b) {
      DescribedUnique(left, ConfigureAll(bare, a + b), bare, a + b);
    }
    assert (forall net :: !Shadowed(a, p, b, net)) <==>
           (forall net :: net in Nets(p.allowedIPs) && Listed(a, net) ==> Listed(b, net)) by {
      if forall net :: net in Nets(p.allowedIPs) && Listed(a, net) ==> Listed(b, net) {
        forall net ensures !Shadowed(a, p, b, net) {
        }
      }
      if forall net :: !Shadowed(a, p, b, net) {
        forall net | net in Nets(p.allowedIPs) && Listed(a, net) ensures Listed(b, net) {
          assert !Shadowed(a, p, b, net);
        }
      }
    }
  }

  // ---- adding a peer ----

  lemma NetsOfOne(cidr: string)
    requires ReadPrefix(cidr).Some?
    ensures Nets([cidr]) == {ReadPrefix(cidr).value}
  {
    hide ReadPrefix;
    assert [cidr][0] == cidr;
  }

  /** A fresh key added to a device with these peers: as if configured after them. */
  lemma AddAgreement(dev: Device, bare: Device, peers: seq<PeerConfig>, pubKey: string, cidr: string)
    requires AllKeysDecode(peers) && Described(dev, bare, peers)
    requires !HasBreak(pubKey) && !HasBreak(cidr) && B64ToHex(pubKey).Some? && B64ToHex(pubKey).value !in Keys(peers)
    ensures KeysDecode(NewPeer(pubKey, cidr))
    ensures LiveAdd(dev, pubKey, cidr) ==
            if Usable(NewPeer(pubKey, cidr)) then Some(Configure(dev, NewPeer(pubKey, cidr))) else None
  {
    hide B64ToHex, LiveAdd, Keys, HasBreak, ReadPrefix, Nets;
    var hex := B64ToHex(pubKey).value;
    LiveAddMeaning(dev, pubKey, cidr);
    forall net | net in dev.routes ensures dev.routes[net] != hex {
      OwnerIsListed(peers, net);
      assert RouteOf(dev, net) == Owner(peers, net);
    }
    assert DropRoutes(dev.routes, hex) == dev.routes;
    if ReadPrefix(cidr).Some? {
      NetsOfOne(cidr);
      assert RouteTo(dev.routes, Nets([cidr]), hex) == dev.routes[ReadPrefix(cidr).value := hex];
    } else {
      assert !Usable(NewPeer(pubKey, cidr)) by {
        assert NewPeer(pubKey, cidr).allowedIPs[0] == cidr;
      }
    }
  }
}
