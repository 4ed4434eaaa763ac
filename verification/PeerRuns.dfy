/** Runs of `Add` and `Remove`, with any step allowed to fail: how far the live device and the file can drift apart. */
module PeerRuns {
  import opened Wrappers
  import opened KeyCodec
  import opened WgConfig
  import opened ConfEdits
  import opened ConfAppend
  import opened WgServer
  import opened LiveAgreement
  import opened Peers
  import opened PeerState
  import opened Prefixes
  import opened Uapi

  // ---- two devices on a set of peers ----

  /** The same settings and the same addresses for these peers. */
  ghost predicate AgreeOn(d1: Device, d2: Device, keys: set<string>) {
    && (forall h :: h in keys ==> h in d1.peers && h in d2.peers && d1.peers[h] == d2.peers[h])
    && (forall net, h :: h in keys ==> (RouteOf(d1, net) == Some(h) <==> RouteOf(d2, net) == Some(h)))
  }

  ghost predicate RoutesToPeers(dev: Device) {
    forall net :: net in dev.routes ==> dev.routes[net] in dev.peers
  }

  function Plus(dev: Device, hex: string, net: Net): Device {
    dev.(peers := dev.peers[hex := BLANK_PEER], routes := dev.routes[net := hex])
  }

  lemma PlusBoth(d1: Device, d2: Device, keys: set<string>, hex: string, net: Net)
    requires AgreeOn(d1, d2, keys) && RoutesToPeers(d1) && RoutesToPeers(d2)
    requires hex !in d1.peers && hex !in d2.peers
    ensures AgreeOn(Plus(d1, hex, net), Plus(d2, hex, net), keys + {hex})
  {
    var e1, e2 := Plus(d1, hex, net), Plus(d2, hex, net);
    forall c, h | h in keys + {hex} ensures RouteOf(e1, c) == Some(h) <==> RouteOf(e2, c) == Some(h) {
      assert c != net ==> RouteOf(e1, c) == RouteOf(d1, c) && RouteOf(e2, c) == RouteOf(d2, c);
    }
  }

  lemma PlusOne(d1: Device, d2: Device, keys: set<string>, hex: string, net: Net)
    requires AgreeOn(d1, d2, keys) && hex !in d1.peers && RouteOf(d2, net) == None
    ensures AgreeOn(Plus(d1, hex, net), d2, keys)
  {
  }

  lemma DropBoth(d1: Device, d2: Device, keys: set<string>, hex: string)
    requires AgreeOn(d1, d2, keys)
    ensures AgreeOn(DropPeer(d1, hex), DropPeer(d2, hex), keys - {hex})
    ensures AgreeOn(DropPeer(d1, hex), d2, keys - {hex})
  {
    forall c, h | h in keys - {hex}
      ensures RouteOf(DropPeer(d1, hex), c) == Some(h) <==> RouteOf(d2, c) == Some(h)
      ensures RouteOf(DropPeer(d2, hex), c) == Some(h) <==> RouteOf(d2, c) == Some(h)
    {
      DroppedRoute(d1, hex, c);
      DroppedRoute(d2, hex, c);
    }
  }

  lemma AgreeAll(d1: Device, d2: Device)
    requires AgreeOn(d1, d2, d1.peers.Keys) && d1.peers.Keys == d2.peers.Keys
    requires RoutesToPeers(d1) && RoutesToPeers(d2)
    requires d1.privateKey == d2.privateKey && d1.listenPort == d2.listenPort
    ensures d1 == d2
  {
    assert d1.peers == d2.peers;
    forall c ensures RouteOf(d1, c) == RouteOf(d2, c) {
      if c in d1.routes {
        assert RouteOf(d1, c) == Some(d1.routes[c]);
      }
      if c in d2.routes {
        assert RouteOf(d2, c) == Some(d2.routes[c]);
      }
    }
    forall c ensures c in d1.routes <==> c in d2.routes
             ensures c in d1.routes ==> d1.routes[c] == d2.routes[c]
    {
      assert RouteOf(d1, c) == RouteOf(d2, c);
    }
    assert d1.routes == d2.routes;
  }

  // ---- the invariant ----

  /** Peers live but not in the file (a rollback failed), and in the file but revoked (a rewrite failed). */
  datatype Ledger = Ledger(ghosts: set<string>, revenants: set<string>)

  const BALANCED := Ledger({}, {})

  ghost predicate Tracks(dev: Device, cfg: Config, led: Ledger)
    requires Bootable(cfg)
  {
    var keys, boot := Keys(cfg.peers), DeviceFor(cfg);
    && led.revenants <= keys
    && led.ghosts !! keys
    && dev.peers.Keys == keys - led.revenants + led.ghosts
    && dev.privateKey == boot.privateKey
    && dev.listenPort == boot.listenPort
    && RoutesToPeers(dev)
    && AgreeOn(dev, boot, keys - led.revenants)
  }

  /** The file is healthy, and apart from the ledger the device is what a restart from the file would bring up. */
  ghost predicate InStep(st: Store, led: Ledger) {
    Healthy(st.conf) && st.live.Running? && Tracks(st.live.device, Parse(st.conf).value, led)
  }

  lemma DescribedFacts(dev: Device, bare: Device, peers: seq<PeerConfig>)
    requires AllKeysDecode(peers) && Described(dev, bare, peers)
    ensures dev.peers.Keys == Keys(peers) && RoutesToPeers(dev)
    ensures forall net :: RouteOf(dev, net).Some? <==> Listed(peers, net)
  {
    hide KeysDecode, Keys, Listed, PeerSettings, Owner;
    forall net ensures RouteOf(dev, net).Some? <==> Listed(peers, net)
                ensures net in dev.routes ==> dev.routes[net] in dev.peers
    {
      OwnerIsListed(peers, net);
      assert RouteOf(dev, net) == Owner(peers, net);
    }
  }

  lemma BootFacts(content: string)
    requires Healthy(content)
    ensures var cfg := Parse(content).value;
            DeviceFor(cfg).peers.Keys == Keys(cfg.peers) && RoutesToPeers(DeviceFor(cfg)) &&
            (forall net :: RouteOf(DeviceFor(cfg), net).Some? <==> Listed(cfg.peers, net))
  {
    hide WF, Parse, DeviceFor, Keys, Listed, Described, RoutesToPeers, RouteOf, KeysDecode, UniqueKeys,
         DisjointAddresses, FieldsUnbroken, B64ToHex;
    var cfg := Parse(content).value;
    RestartMeaning(content);
    DescribedFacts(DeviceFor(cfg), BareDevice(cfg.iface), cfg.peers);
  }

  /** With nothing on the ledger the live device equals the restarted one. */
  lemma BalancedIsRestart(st: Store)
    requires InStep(st, BALANCED)
    ensures Restart(st.conf) == Some(st.live.device)
  {
    hide WF, Parse, Bootable, DeviceFor, Keys, Listed, Described, RoutesToPeers, RouteOf, AgreeOn, UniqueKeys,
         DisjointAddresses;
    var keys := Keys(Parse(st.conf).value.peers);
    RestartMeaning(st.conf);
    BootFacts(st.conf);
    assert keys - {} == keys && keys + {} == keys;
    AgreeAll(st.live.device, DeviceFor(Parse(st.conf).value));
  }

  lemma RestartedIsBalanced(content: string)
    requires Healthy(content)
    ensures Restart(content).Some? && InStep(Store(content, Running(Restart(content).value)), BALANCED)
  {
    hide WF, Parse, Sound, DeviceFor, Keys, Listed, AgreeOn, RoutesToPeers, RouteOf, Described, Bootable;
    HealthyIsBootable(content);
    RestartMeaning(content);
    BootFacts(content);
    AgreeSelf(DeviceFor(Parse(content).value));
    var keys := Keys(Parse(content).value.peers);
    assert keys - {} == keys && keys - {} + {} == keys;
  }

  lemma AgreeSelf(dev: Device)
    ensures AgreeOn(dev, dev, dev.peers.Keys)
  {
  }

  // ---- Add ----

  /** The generated key is in use neither in the file nor on the device. */
  predicate FreshKey(st: Store, key: seq<byte>) {
    && |key| == KEY_LENGTH
    && (Parse(st.conf).Ok? ==> ToHex(key) !in Keys(Parse(st.conf).value.peers))
    && (st.live.Running? ==> ToHex(key) !in st.live.device.peers)
  }

  /** The address an `Add` would hand out is not listed yet. */
  predicate FreshAddress(st: Store) {
    Parse(st.conf).Ok? && |Parse(st.conf).value.peers| < MAX_PEERS ==>
      !Listed(Parse(st.conf).value.peers, NewNet(Parse(st.conf).value))
  }

  /** A peer whose rollback failed is on the device only. */
  function AddLedger(st: Store, led: Ledger, name: string, key: seq<byte>, faults: Faults): Ledger {
    if AddStep(st, name, key, faults).1 == Err(WriteFailed) && faults.rollback then
      led.(ghosts := led.ghosts + {ToHex(key)})
    else led
  }

  lemma LivePlus(dev: Device, key: seq<byte>, cidr: string)
    requires |key| == KEY_LENGTH && ToHex(key) !in dev.peers && !HasBreak(cidr) && ReadPrefix(cidr).Some?
    ensures LiveAdd(dev, Encode(key), cidr) == Some(Plus(dev, ToHex(key), ReadPrefix(cidr).value))
  {
    hide Encode, ToHex, LiveAdd, HasBreak, B64ToHex, ReadPrefix;
    KeyIsPlain(key);
    GeneratedKeyAccepted(key);
    LiveAddMeaning(dev, Encode(key), cidr);
  }

  lemma LiveMinus(dev: Device, key: seq<byte>)
    requires |key| == KEY_LENGTH
    ensures LiveRemove(dev, Encode(key)) == Some(DropPeer(dev, ToHex(key)))
  {
    hide Encode, ToHex, LiveRemove, HasBreak, B64ToHex;
    KeyIsPlain(key);
    GeneratedKeyAccepted(key);
    LiveRemoveMeaning(dev, Encode(key));
  }

  lemma UndonePlus(dev: Device, hex: string, net: Net)
    requires hex !in dev.peers && RoutesToPeers(dev)
    ensures DropPeer(Plus(dev, hex, net), hex) == dev.(routes := dev.routes - {net})
  {
  }

  lemma AgreeLess(d1: Device, d2: Device, keys: set<string>, net: Net)
    requires AgreeOn(d1, d2, keys) && RouteOf(d2, net) == None
    ensures AgreeOn(d1.(routes := d1.routes - {net}), d2, keys)
  {
  }

  /** The device a restart would bring up after the file gained the peer. */
  lemma BootPlus(content: string, key: seq<byte>)
    requires Healthy(content) && |Parse(content).value.peers| < MAX_PEERS
    requires |key| == KEY_LENGTH && ToHex(key) !in Keys(Parse(content).value.peers)
    requires Bootable(ConfigPlus(Parse(content).value, Encode(key)))
    ensures var cfg := Parse(content).value;
            DeviceFor(ConfigPlus(cfg, Encode(key))) == Plus(DeviceFor(cfg), ToHex(key), NewNet(cfg)) &&
            Keys(ConfigPlus(cfg, Encode(key)).peers) == Keys(cfg.peers) + {ToHex(key)}
  {
    hide WF, Parse, Encode, ToHex, Keys, HasBreak, B64ToHex, KeysDecode, Configure, ConfigureAll, LiveAdd, Described,
         NewAddress, NewNet, UniqueKeys, DisjointAddresses, PlainValue, ReadPrefix;
    var cfg := Parse(content).value;
    var cidr := NewAddress(cfg) + "/32";
    var p := NewPeer(Encode(key), cidr);
    RestartMeaning(content);
    BootFacts(content);
    KeyIsPlain(key);
    GeneratedKeyAccepted(key);
    NewAddressReads(cfg);
    AddAgreement(DeviceFor(cfg), BareDevice(cfg.iface), cfg.peers, Encode(key), cidr);
    LivePlus(DeviceFor(cfg), key, cidr);
    ConfigureAllSnoc(BareDevice(cfg.iface), cfg.peers, p);
    KeysConcat(cfg.peers, [p]);
    KeysOfOne(p);
  }

  lemma KeysOfOne(p: PeerConfig)
    ensures Keys([p]) == {HexOf(p)}
  {
    assert [p][0] == p;
  }

  /** Whatever fails in an `Add`, file and device stay in step up to the ledger. */
  lemma AddKeepsStep(st: Store, led: Ledger, name: string, key: seq<byte>, faults: Faults)
    requires InStep(st, led) && FreshKey(st, key) && FreshAddress(st)
    ensures InStep(AddStep(st, name, key, faults).0, AddLedger(st, led, name, key, faults))
  {
    hide WF, Parse, Sound, Encode, ToHex, Keys, LegalName, Bootable, DeviceFor, LiveAdd, LiveRemove, Listed, ReadPrefix,
         Appended, B64ToHex, NewAddress, NewNet, Tracks, HasBreak, Plus, DropPeer, PlainValue;
    var cfg := Parse(st.conf).value;
    if LegalName(name) && !faults.read && |cfg.peers| < MAX_PEERS && !faults.keygen && !faults.liveAdd {
      NewAddressReads(cfg);
      LivePlus(st.live.device, key, NewAddress(cfg) + "/32");
      LiveMinus(Plus(st.live.device, ToHex(key), NewNet(cfg)), key);
      if faults.append {
        AddRolledBack(st, led, key);
      } else {
        AddCommitted(st, led, name, key);
      }
    }
  }

  lemma AddRolledBack(st: Store, led: Ledger, key: seq<byte>)
    requires InStep(st, led) && FreshKey(st, key) && FreshAddress(st) && |Parse(st.conf).value.peers| < MAX_PEERS
    ensures var cfg := Parse(st.conf).value;
            var plus := Plus(st.live.device, ToHex(key), NewNet(cfg));
            Tracks(plus, cfg, led.(ghosts := led.ghosts + {ToHex(key)})) &&
            Tracks(DropPeer(plus, ToHex(key)), cfg, led)
  {
    hide WF, Parse, ToHex, Keys, Bootable, DeviceFor, UniqueKeys, DisjointAddresses, NewNet, Listed;
    var cfg, dev := Parse(st.conf).value, st.live.device;
    var net, hex := NewNet(cfg), ToHex(key);
    BootFacts(st.conf);
    PlusOne(dev, DeviceFor(cfg), Keys(cfg.peers) - led.revenants, hex, net);
    UndonePlus(dev, hex, net);
    AgreeLess(dev, DeviceFor(cfg), Keys(cfg.peers) - led.revenants, net);
  }

  lemma AddCommitted(st: Store, led: Ledger, name: string, key: seq<byte>)
    requires InStep(st, led) && FreshKey(st, key) && FreshAddress(st) && |Parse(st.conf).value.peers| < MAX_PEERS
    requires LegalName(name)
    ensures var cfg := Parse(st.conf).value;
            InStep(Store(Appended(st.conf, name, Encode(key), NewAddress(cfg)),
                         Running(Plus(st.live.device, ToHex(key), NewNet(cfg)))), led)
  {
    hide WF, Parse, ToHex, Keys, Bootable, DeviceFor, UniqueKeys, DisjointAddresses, NewAddress, ConfigPlus, NewNet,
         LegalName, Encode, Appended, Listed;
    var cfg, dev := Parse(st.conf).value, st.live.device;
    var net, hex := NewNet(cfg), ToHex(key);
    HealthyAdd(st.conf, name, key);
    BootPlus(st.conf, key);
    BootFacts(st.conf);
    PlusBoth(dev, DeviceFor(cfg), Keys(cfg.peers) - led.revenants, hex, net);
    assert Keys(cfg.peers) + {hex} - led.revenants == Keys(cfg.peers) - led.revenants + {hex};
  }

  /** An `Add` that failed after its live update and was rolled back. */
  predicate RolledBack(faults: Faults) {
    !faults.read && !faults.keygen && !faults.liveAdd && faults.append && !faults.rollback
  }

  /**
   * A rolled-back `Add` is a no-op exactly if nobody on the device had the new address: whoever had it loses it.
   * While no peer of the file lists it, only a peer of an earlier failed rollback can be the loser.
   */
  lemma RollbackExact(st: Store, led: Ledger, name: string, key: seq<byte>, faults: Faults)
    requires InStep(st, led) && FreshKey(st, key)
    requires LegalName(name) && |Parse(st.conf).value.peers| < MAX_PEERS && RolledBack(faults)
    ensures AddStep(st, name, key, faults).1 == Err(WriteFailed)
    ensures var net := NewNet(Parse(st.conf).value);
            (AddStep(st, name, key, faults).0 == st <==> net !in st.live.device.routes) &&
            (FreshAddress(st) && net in st.live.device.routes ==> st.live.device.routes[net] in led.ghosts)
  {
    hide WF, Parse, Sound, Encode, ToHex, Keys, LegalName, DeviceFor, LiveAdd, LiveRemove, Listed, ReadPrefix, Appended,
         B64ToHex, NewAddress, NewNet, HasBreak, PlainValue, Plus, DropPeer, Bootable, UniqueKeys, DisjointAddresses;
    var cfg, dev := Parse(st.conf).value, st.live.device;
    var net := NewNet(cfg);
    NewAddressReads(cfg);
    LivePlus(dev, key, NewAddress(cfg) + "/32");
    LiveMinus(Plus(dev, ToHex(key), net), key);
    UndonePlus(dev, ToHex(key), net);
    BootFacts(st.conf);
    if net in dev.routes {
      assert RouteOf(dev, net) == Some(dev.routes[net]);
    } else {
      assert dev.routes - {net} == dev.routes;
    }
  }

  // ---- Remove ----

  function TargetHex(st: Store, index: int): string {
    if Parse(st.conf).Ok? && 1 <= index <= |Parse(st.conf).value.peers| then
      HexOf(Parse(st.conf).value.peers[index - 1])
    else ""
  }

  /** A peer whose rewrite failed is in the file only; a completed removal settles it. */
  function RemoveLedger(st: Store, led: Ledger, index: int, faults: Faults): Ledger {
    match RemoveStep(st, index, faults).1
    case Ok(_) => led.(revenants := led.revenants - {TargetHex(st, index)})
    case Err(RewriteFailed) => led.(revenants := led.revenants + {TargetHex(st, index)})
    case Err(_) => led
  }

  lemma LiveDrop(dev: Device, p: PeerConfig)
    requires KeysDecode(p) && Unbroken(p)
    ensures LiveRemove(dev, p.publicKey) == Some(DropPeer(dev, HexOf(p)))
  {
    hide B64ToHex, LiveRemove, DropPeer;
    LiveRemoveMeaning(dev, p.publicKey);
  }

  lemma KeysDrop(peers: seq<PeerConfig>, i: nat)
    requires i < |peers| && UniqueKeys(peers)
    ensures Keys(DropAt(peers, i)) == Keys(peers) - {HexOf(peers[i])}
  {
    hide HexOf;
    var a, p, b := peers[..i], peers[i], peers[i + 1..];
    assert peers == a + [p] + b;
    UniqueApart(a, p, b);
    KeysConcat(a + [p], b);
    KeysConcat(a, [p]);
    KeysConcat(a, b);
    KeysOfOne(p);
  }

  /** The device a restart would bring up after the file lost the peer. */
  lemma BootMinus(cfg: Config, i: nat)
    requires Sound(cfg) && i < |cfg.peers| && Bootable(cfg.(peers := DropAt(cfg.peers, i)))
    ensures DeviceFor(cfg.(peers := DropAt(cfg.peers, i))) == DropPeer(DeviceFor(cfg), HexOf(cfg.peers[i]))
  {
    hide HexOf, KeysDecode, Unbroken, Usable, HasBreak, B64ToHex, UniqueKeys, ConfigureAll, DropPeer, Nets,
         Listed;
    var a, p, b := cfg.peers[..i], cfg.peers[i], cfg.peers[i + 1..];
    assert cfg.peers == a + [p] + b;
    assert DropAt(cfg.peers, i) == a + b;
    forall net | net in Nets(p.allowedIPs) ensures !Listed(a, net) {
      NotListedBefore(cfg.peers, i, net);
    }
    RemoveAgreement(BareDevice(cfg.iface), a, p, b);
  }

  lemma NotListedBefore(peers: seq<PeerConfig>, i: nat, net: Net)
    requires DisjointAddresses(peers) && i < |peers| && net in Nets(peers[i].allowedIPs)
    ensures !Listed(peers[..i], net)
  {
    hide Nets;
  }

  lemma RemoveTracks(st: Store, led: Ledger, i: nat)
    requires InStep(st, led) && i < |Parse(st.conf).value.peers|
    ensures var cfg := Parse(st.conf).value;
            var hex := HexOf(cfg.peers[i]);
            Tracks(DropPeer(st.live.device, hex), cfg, led.(revenants := led.revenants + {hex})) &&
            Bootable(cfg.(peers := DropAt(cfg.peers, i))) &&
            Tracks(DropPeer(st.live.device, hex), cfg.(peers := DropAt(cfg.peers, i)),
                   led.(revenants := led.revenants - {hex}))
  {
    hide WF, Parse, Bootable, DeviceFor, UniqueKeys, DisjointAddresses, HexOf, Keys, DropAt;
    var cfg, dev := Parse(st.conf).value, st.live.device;
    var hex, keys := HexOf(cfg.peers[i]), Keys(cfg.peers);
    assert hex in keys by {
      TargetIsListed(cfg.peers, i);
    }
    SoundDrop(cfg, i);
    BootMinus(cfg, i);
    KeysDrop(cfg.peers, i);
    DropBoth(dev, DeviceFor(cfg), keys - led.revenants, hex);
    assert keys - led.revenants - {hex} == keys - (led.revenants + {hex}) == keys - {hex} - (led.revenants - {hex});
  }

  lemma TargetIsListed(peers: seq<PeerConfig>, i: nat)
    requires i < |peers|
    ensures HexOf(peers[i]) in Keys(peers)
  {
  }

  lemma LiveDropOf(dev: Device, cfg: Config, i: nat)
    requires Bootable(cfg) && i < |cfg.peers|
    ensures LiveRemove(dev, cfg.peers[i].publicKey) == Some(DropPeer(dev, HexOf(cfg.peers[i])))
  {
    hide KeysDecode, Unbroken, HexOf, LiveRemove;
    LiveDrop(dev, cfg.peers[i]);
  }

  lemma HealthyIsBootable(content: string)
    requires Healthy(content)
    ensures Parse(content).Ok? && Bootable(Parse(content).value)
  {
    hide WF, Parse, Bootable;
  }

  /** Whatever fails in a `Remove`, file and device stay in step up to the ledger. */
  lemma RemoveKeepsStep(st: Store, led: Ledger, index: int, faults: Faults)
    requires InStep(st, led)
    ensures InStep(RemoveStep(st, index, faults).0, RemoveLedger(st, led, index, faults))
  {
    hide Healthy, Parse, Tracks, HexOf, DropAt, LiveRemove, WithoutBlock, DropPeer, Bootable;
    HealthyIsBootable(st.conf);
    var cfg := Parse(st.conf).value;
    if !faults.read && 1 <= index <= |cfg.peers| && !faults.liveRemove {
      LiveDropOf(st.live.device, cfg, index - 1);
      HealthyDrop(st.conf, index - 1);
      RemoveTracks(st, led, index - 1);
    }
  }
}
