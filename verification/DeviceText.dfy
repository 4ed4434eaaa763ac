/** The texts the device is driven with, which configurations a start accepts, and the device it brings up. */
module DeviceText {
  import opened Wrappers
  import opened KeyCodec
  import opened WgConfig
  import opened Prefixes
  import opened Uapi
  import opened WgServer
  import opened LiveAgreement
  import Decimal

  // ---- the texts ----

  function AddressLines(cidrs: seq<string>): string {
    if cidrs == [] then "" else "allowed_ip=" + cidrs[0] + "\n" + AddressLines(cidrs[1..])
  }

  /** The device form of a key that was accepted. */
  function Hex(b64: string): string {
    if B64ToHex(b64).Some? then B64ToHex(b64).value else ""
  }

  function PeerLinesText(p: PeerConfig): string {
    "public_key=" + Hex(p.publicKey) + "\n"
    + (if p.presharedKey != "" then "preshared_key=" + Hex(p.presharedKey) + "\n" else "")
    + "replace_allowed_ips=true\n"
    + AddressLines(p.allowedIPs)
    + (if p.endpoint != "" then "endpoint=" + p.endpoint + "\n" else "")
    + (if p.keepalive > 0 then "persistent_keepalive_interval=" + Decimal.FormatNat(p.keepalive) + "\n" else "")
  }

  function PeersText(peers: seq<PeerConfig>): string {
    if peers == [] then "" else PeerLinesText(peers[0]) + PeersText(peers[1..])
  }

  function StartText(cfg: Config): string {
    "private_key=" + Hex(cfg.iface.privateKey) + "\n"
    + (if cfg.iface.listenPort > 0 then "listen_port=" + Decimal.FormatNat(cfg.iface.listenPort) + "\n" else "")
    + PeersText(cfg.peers)
    + "\n"
  }

  lemma OneLine(c: Command, text: string)
    requires text == Print(c) + "\n"
    ensures Written([c]) == text
  {
    hide Print;
    WriteOne([], c);
    WrittenNothing();
    assert [] + [c] == [c];
  }

  lemma {:induction false} AddressLinesWritten(cidrs: seq<string>)
    ensures Written(AllowedCommands(cidrs)) == AddressLines(cidrs)
  {
    hide Written;
    if cidrs == [] {
      WrittenNothing();
    } else {
      AddressLinesWritten(cidrs[1..]);
      assert AllowedCommands(cidrs) == [AllowedIP(cidrs[0])] + AllowedCommands(cidrs[1..]);
      OneLine(AllowedIP(cidrs[0]), "allowed_ip=" + cidrs[0] + "\n");
      WriteMore([AllowedIP(cidrs[0])], AllowedCommands(cidrs[1..]));
    }
  }

  lemma OptionalWritten(p: PeerConfig)
    requires KeysDecode(p)
    ensures Written(PskCommands(p)) ==
            if p.presharedKey != "" then "preshared_key=" + Hex(p.presharedKey) + "\n" else ""
    ensures Written(EndpointCommands(p)) == if p.endpoint != "" then "endpoint=" + p.endpoint + "\n" else ""
    ensures Written(KeepaliveCommands(p)) ==
            if p.keepalive > 0 then "persistent_keepalive_interval=" + Decimal.FormatNat(p.keepalive) + "\n" else ""
  {
    hide Written, B64ToHex, Decimal.FormatNat;
    WrittenNothing();
    if p.presharedKey != "" {
      OneLine(PresharedKey(Hex(p.presharedKey)), "preshared_key=" + Hex(p.presharedKey) + "\n");
    }
    if p.endpoint != "" {
      OneLine(Endpoint(p.endpoint), "endpoint=" + p.endpoint + "\n");
    }
    if p.keepalive > 0 {
      OneLine(Keepalive(p.keepalive), "persistent_keepalive_interval=" + Decimal.FormatNat(p.keepalive) + "\n");
    }
  }

  lemma SixParts(a: seq<Command>, b: seq<Command>, c: seq<Command>, d: seq<Command>, e: seq<Command>, f: seq<Command>)
    ensures Written(a + b + c + d + e + f) ==
            Written(a) + Written(b) + Written(c) + Written(d) + Written(e) + Written(f)
  {
    hide Written;
    WriteMore(a, b);
    WriteMore(a + b, c);
    WriteMore(a + b + c, d);
    WriteMore(a + b + c + d, e);
    WriteMore(a + b + c + d + e, f);
  }

  lemma PeerWritten(p: PeerConfig)
    requires KeysDecode(p)
    ensures Written(PeerCommands(p)) == PeerLinesText(p)
  {
    hide Written, B64ToHex, PskCommands, EndpointCommands, KeepaliveCommands, AllowedCommands, PeerCommands,
         AddressLines, Decimal.FormatNat;
    FlatCommands(p);
    SixParts([PublicKey(HexOf(p))], PskCommands(p), [ReplaceAllowedIPs], AllowedCommands(p.allowedIPs),
             EndpointCommands(p), KeepaliveCommands(p));
    OneLine(PublicKey(HexOf(p)), "public_key=" + Hex(p.publicKey) + "\n");
    OneLine(ReplaceAllowedIPs, "replace_allowed_ips=true\n");
    OptionalWritten(p);
    AddressLinesWritten(p.allowedIPs);
  }

  lemma {:induction false} PeersWritten(peers: seq<PeerConfig>)
    requires forall i :: 0 <= i < |peers| ==> KeysDecode(peers[i])
    ensures Written(PeersCommands(peers)) == PeersText(peers)
  {
    hide Written, KeysDecode, PeerCommands, PeerLinesText;
    if peers == [] {
      WrittenNothing();
    } else {
      PeersWritten(peers[1..]);
      PeerWritten(peers[0]);
      WriteMore(PeerCommands(peers[0]), PeersCommands(peers[1..]));
    }
  }

  /** The text a start is made from, line by line. */
  lemma StartTextMeaning(cfg: Config)
    ensures UapiText(cfg).Some? ==> UapiText(cfg).value == StartText(cfg)
  {
    hide Written, B64ToHex, PeersText, KeysDecode, Unbroken, FieldsUnbroken, Decimal.FormatNat, PeersCommands, Script;
    if UapiText(cfg).Some? {
      var key, port := PrivateKey(Hex(cfg.iface.privateKey)), cfg.iface.listenPort;
      OneLine(key, "private_key=" + Hex(cfg.iface.privateKey) + "\n");
      WrittenNothing();
      if port > 0 {
        OneLine(ListenPort(port), "listen_port=" + Decimal.FormatNat(port) + "\n");
      }
      WriteMore([key], if port > 0 then [ListenPort(port)] else []);
      WriteMore(DeviceCommands(cfg.iface), PeersCommands(cfg.peers));
      PeersWritten(cfg.peers);
      WrittenIsScript(ConfigCommands(cfg));
    }
  }

  /** The text of one peer more on the running device. */
  lemma LiveAddText(hex: string, cidr: string)
    ensures Script([PublicKey(hex), AllowedIP(cidr)]) == "public_key=" + hex + "\nallowed_ip=" + cidr + "\n\n"
  {
    hide Written, Script;
    OneLine(PublicKey(hex), "public_key=" + hex + "\n");
    OneLine(AllowedIP(cidr), "allowed_ip=" + cidr + "\n");
    TwoLines(PublicKey(hex), AllowedIP(cidr));
    assert "\n" + "allowed_ip=" == "\nallowed_ip=" && "\n" + "\n" == "\n\n";
    TwoLinesJoined("public_key=", hex, "\n", "allowed_ip=", cidr);
  }

  /** The text of one peer less. */
  lemma LiveRemoveText(hex: string)
    ensures Script([PublicKey(hex), Remove]) == "public_key=" + hex + "\nremove=true\n\n"
  {
    hide Written, Script;
    OneLine(PublicKey(hex), "public_key=" + hex + "\n");
    OneLine(Remove, "remove=true\n");
    TwoLines(PublicKey(hex), Remove);
    assert "\n" + "remove=true\n" + "\n" == "\nremove=true\n\n";
    SecondLine("public_key=" + hex, "\n", "remove=true\n");
  }

  lemma SecondLine(first: string, nl: string, second: string)
    ensures first + nl + second + nl == first + (nl + second + nl)
  {
  }

  lemma TwoLinesJoined(a: string, x: string, nl: string, b: string, y: string)
    ensures a + x + nl + (b + y + nl) + nl == a + x + (nl + b) + y + (nl + nl)
  {
  }

  lemma TwoLines(a: Command, b: Command)
    ensures Script([a, b]) == Written([a]) + Written([b]) + "\n"
  {
    hide Written, Script;
    WriteMore([a], [b]);
    assert [a] + [b] == [a, b];
    WrittenIsScript([a, b]);
  }

  // ---- starting ----

  /** No newline and no carriage return. */
  predicate OneLiner(s: string) {
    '\n' !in s && '\r' !in s
  }

  /**
   * A start from a parsed file succeeds exactly if the interface has an address and every key is one of 32 bytes,
   * no field holds a line break, every address and endpoint can be read, and no keepalive is above 65535.
   */
  lemma StartExactly(cfg: Config)
    requires CleanAddresses(cfg.peers) && cfg.iface.listenPort <= 65535
    ensures Boot(cfg).Some? <==>
            && cfg.iface.address != "" && OneLiner(cfg.iface.address)
            && B64ToHex(cfg.iface.privateKey).Some? && OneLiner(cfg.iface.privateKey)
            && forall i :: 0 <= i < |cfg.peers| ==>
                 var p := cfg.peers[i];
                 && B64ToHex(p.publicKey).Some? && OneLiner(p.publicKey)
                 && (p.presharedKey == "" || B64ToHex(p.presharedKey).Some?) && OneLiner(p.presharedKey)
                 && (p.endpoint == "" || IsEndpoint(p.endpoint)) && OneLiner(p.endpoint)
                 && (forall j :: 0 <= j < |p.allowedIPs| ==> ReadPrefix(p.allowedIPs[j]).Some?)
                 && p.keepalive <= 65535
  {
    hide Boot, B64ToHex, IsEndpoint, ReadPrefix;
    BootMeaning(cfg);
  }

  /** The settings of a peer on the device a start brings up. */
  function SettingsOf(p: PeerConfig): DevicePeer {
    DevicePeer(
      if p.presharedKey == "" then "" else Hex(p.presharedKey), p.endpoint, if p.keepalive > 0 then p.keepalive else 0)
  }

  /** The last of the peers that list the network. */
  ghost predicate LastLister(peers: seq<PeerConfig>, net: Net, i: nat) {
    && i < |peers| && net in Nets(peers[i].allowedIPs)
    && forall j :: i < j < |peers| ==> net !in Nets(peers[j].allowedIPs)
  }

  lemma {:induction false} OwnerIsLast(peers: seq<PeerConfig>, net: Net)
    ensures forall i: nat :: LastLister(peers, net, i) ==> Owner(peers, net) == Some(Hex(peers[i].publicKey))
    ensures Owner(peers, net).Some? ==> exists i: nat :: LastLister(peers, net, i)
  {
    hide Nets, B64ToHex;
    if peers != [] {
      var n := |peers| - 1;
      var front := peers[..n];
      OwnerIsLast(front, net);
      if net in Nets(peers[n].allowedIPs) {
        assert LastLister(peers, net, n);
      } else {
        forall i: nat ensures LastLister(peers, net, i) <==> LastLister(front, net, i) {
          assert i < n ==> front[i] == peers[i];
          if LastLister(front, net, i) {
            forall j | i < j < |peers| ensures net !in Nets(peers[j].allowedIPs) {
              assert j < n ==> front[j] == peers[j];
            }
          } else if LastLister(peers, net, i) {
            forall j | i < j < n ensures net !in Nets(front[j].allowedIPs) {
              assert front[j] == peers[j];
            }
          }
        }
      }
    }
  }

  lemma StartedIs(cfg: Config, dev: Device)
    requires CleanAddresses(cfg.peers) && cfg.iface.listenPort <= 65535 && Boot(cfg) == Some(dev)
    requires UniqueKeys(cfg.peers)
    ensures AllKeysDecode(cfg.peers) && B64ToHex(cfg.iface.privateKey).Some?
    ensures Described(dev, BareDevice(cfg.iface), cfg.peers)
  {
    hide Boot, B64ToHex, ConfigureAll, KeysDecode, Unbroken, Usable, UniqueKeys, Described, FieldsUnbroken;
    BootMeaning(cfg);
    DecodedPeers(cfg);
    ConfiguredDevice(BareDevice(cfg.iface), cfg.peers);
  }

  /** The device a start brings up has its own key and port, and every peer of the file with its settings. */
  lemma StartedPeers(cfg: Config, dev: Device)
    requires CleanAddresses(cfg.peers) && cfg.iface.listenPort <= 65535 && Boot(cfg) == Some(dev)
    requires UniqueKeys(cfg.peers)
    ensures dev.privateKey == Hex(cfg.iface.privateKey)
    ensures dev.listenPort == if cfg.iface.listenPort > 0 then cfg.iface.listenPort else 0
    ensures forall hex :: hex in dev.peers <==> exists i :: 0 <= i < |cfg.peers| && hex == Hex(cfg.peers[i].publicKey)
    ensures forall i :: 0 <= i < |cfg.peers| ==>
              Hex(cfg.peers[i].publicKey) in dev.peers &&
              dev.peers[Hex(cfg.peers[i].publicKey)] == SettingsOf(cfg.peers[i])
  {
    hide Boot, B64ToHex, KeysDecode, Owner, UniqueKeys, SettingsOf, PeerSettings;
    var peers := cfg.peers;
    StartedIs(cfg, dev);
    forall i | 0 <= i < |peers|
      ensures Hex(peers[i].publicKey) in dev.peers && dev.peers[Hex(peers[i].publicKey)] == SettingsOf(peers[i])
    {
      assert HexOf(peers[i]) in Keys(peers);
      SettingsAt(peers, i);
    }
  }

  /** And every network goes to the last peer that lists it. */
  lemma StartedRoutes(cfg: Config, dev: Device, net: Net)
    requires CleanAddresses(cfg.peers) && cfg.iface.listenPort <= 65535 && Boot(cfg) == Some(dev)
    requires UniqueKeys(cfg.peers)
    ensures net in dev.routes <==> exists i: nat :: LastLister(cfg.peers, net, i)
    ensures forall i: nat :: LastLister(cfg.peers, net, i) ==>
                               net in dev.routes && dev.routes[net] == Hex(cfg.peers[i].publicKey)
  {
    hide Boot, B64ToHex, KeysDecode, Owner, UniqueKeys, PeerSettings, LastLister, Nets;
    StartedIs(cfg, dev);
    OwnerIsLast(cfg.peers, net);
    assert RouteOf(dev, net) == Owner(cfg.peers, net);
    forall i: nat | LastLister(cfg.peers, net, i) ensures i < |cfg.peers| {
      LastIsIn(cfg.peers, net, i);
    }
  }

  lemma LastIsIn(peers: seq<PeerConfig>, net: Net, i: nat)
    requires LastLister(peers, net, i)
    ensures i < |peers|
  {
  }

  lemma DecodedPeers(cfg: Config)
    requires Bootable(cfg)
    ensures AllKeysDecode(cfg.peers) && BareDevice(cfg.iface).privateKey == Hex(cfg.iface.privateKey)
  {
    hide B64ToHex, KeysDecode, Usable;
  }

  lemma {:induction false} SettingsAt(peers: seq<PeerConfig>, i: nat)
    requires AllKeysDecode(peers) && UniqueKeys(peers) && i < |peers|
    ensures PeerSettings(peers, HexOf(peers[i])) == Some(SettingsOf(peers[i]))
    decreases |peers|
  {
    hide B64ToHex;
    var n := |peers| - 1;
    if i < n {
      SettingsAt(peers[..n], i);
    } else {
      assert KeysDecode(peers[n]);
    }
  }

  // ---- one peer on the running device ----

  /** A live add succeeds exactly for a 32-byte key and a readable address without line breaks. */
  lemma LiveAddExactly(dev: Device, pubKey: string, cidr: string)
    ensures LiveAdd(dev, pubKey, cidr).Some? <==>
            OneLiner(pubKey) && OneLiner(cidr) && B64ToHex(pubKey).Some? && ReadPrefix(cidr).Some?
  {
    hide B64ToHex, ReadPrefix, IpcSet, Script;
    if OneLiner(pubKey) && OneLiner(cidr) && B64ToHex(pubKey).Some? {
      LiveAddMeaning(dev, pubKey, cidr);
    }
  }

  /** A live removal succeeds exactly for a 32-byte key without line breaks. */
  lemma LiveRemoveExactly(dev: Device, pubKey: string)
    ensures LiveRemove(dev, pubKey).Some? <==> OneLiner(pubKey) && B64ToHex(pubKey).Some?
  {
    hide B64ToHex, IpcSet, Script;
    if OneLiner(pubKey) && B64ToHex(pubKey).Some? {
      LiveRemoveMeaning(dev, pubKey);
    }
  }
}
