/** `internal/wg/server.go`: the start-up configuration text, and adding or removing one peer on the live device. */
module WgServer {
  import opened Wrappers
  import opened Text
  import opened KeyCodec
  import opened WgConfig
  import opened Prefixes
  import opened Uapi
  import Decimal

  /** `validateNoNewlines` refuses these. */
  predicate HasBreak(s: string) {
    '\n' in s || '\r' in s
  }

  // ---- the configuration text ----

  predicate Unbroken(p: PeerConfig) {
    !HasBreak(p.publicKey) && !HasBreak(p.endpoint) && !HasBreak(p.presharedKey)
  }

  predicate FieldsUnbroken(cfg: Config) {
    && !HasBreak(cfg.iface.privateKey)
    && !HasBreak(cfg.iface.address)
    && forall i :: 0 <= i < |cfg.peers| ==> Unbroken(cfg.peers[i])
  }

  function AllowedCommands(cidrs: seq<string>): (r: seq<Command>)
    ensures |r| == |cidrs|
    ensures forall i :: 0 <= i < |r| ==> r[i] == AllowedIP(cidrs[i])
  {
    seq(|cidrs|, i requires 0 <= i < |cidrs| => AllowedIP(cidrs[i]))
  }

  predicate KeysDecode(p: PeerConfig) {
    B64ToHex(p.publicKey).Some? && (p.presharedKey != "" ==> B64ToHex(p.presharedKey).Some?)
  }

  function HexOf(p: PeerConfig): string {
    if B64ToHex(p.publicKey).Some? then B64ToHex(p.publicKey).value else ""
  }

  function PskCommands(p: PeerConfig): seq<Command>
    requires KeysDecode(p)
  {
    if p.presharedKey != "" then [PresharedKey(B64ToHex(p.presharedKey).value)] else []
  }

  function EndpointCommands(p: PeerConfig): seq<Command> {
    if p.endpoint != "" then [Endpoint(p.endpoint)] else []
  }

  function KeepaliveCommands(p: PeerConfig): seq<Command> {
    if p.keepalive > 0 then [Keepalive(p.keepalive)] else []
  }

  /** The commands for one peer. */
  function PeerCommands(p: PeerConfig): seq<Command>
    requires KeysDecode(p)
  {
    [PublicKey(HexOf(p))] + (PskCommands(p) + ([ReplaceAllowedIPs] + (AllowedCommands(p.allowedIPs)
    + (EndpointCommands(p) + KeepaliveCommands(p)))))
  }

  function PeersCommands(peers: seq<PeerConfig>): seq<Command>
    requires forall i :: 0 <= i < |peers| ==> KeysDecode(peers[i])
  {
    if peers == [] then [] else PeerCommands(peers[0]) + PeersCommands(peers[1..])
  }

  predicate Buildable(cfg: Config) {
    && FieldsUnbroken(cfg)
    && B64ToHex(cfg.iface.privateKey).Some?
    && forall i :: 0 <= i < |cfg.peers| ==> KeysDecode(cfg.peers[i])
  }

  function DeviceCommands(iface: InterfaceConfig): seq<Command>
    requires B64ToHex(iface.privateKey).Some?
  {
    [PrivateKey(B64ToHex(iface.privateKey).value)]
    + if iface.listenPort > 0 then [ListenPort(iface.listenPort)] else []
  }

  function ConfigCommands(cfg: Config): seq<Command>
    requires Buildable(cfg)
  {
    DeviceCommands(cfg.iface) + PeersCommands(cfg.peers)
  }

  function UapiText(cfg: Config): Option<string> {
    if Buildable(cfg) then Some(Script(ConfigCommands(cfg))) else None
  }

  // ---- writing it ----

  /** What a builder holds after these commands. */
  function Written(commands: seq<Command>): string {
    Unlines(PrintAll(commands))
  }

  lemma WriteMore(commands: seq<Command>, more: seq<Command>)
    ensures Written(commands + more) == Written(commands) + Written(more)
  {
    hide PrintAll;
    PrintAllConcat(commands, more);
    UnlinesConcat(PrintAll(commands), PrintAll(more));
  }

  lemma WriteOne(commands: seq<Command>, c: Command)
    ensures Written(commands + [c]) == Written(commands) + (Print(c) + "\n")
  {
    hide Print;
    WriteMore(commands, [c]);
    assert [c][1..] == [];
    assert PrintAll([c]) == [Print(c)];
    UnlinesOne(Print(c));
  }

  /** One more line on a builder that held `b0` before these commands. */
  lemma Emit(b0: string, done: seq<Command>, c: Command)
    ensures b0 + Written(done) + (Print(c) + "\n") == b0 + Written(done + [c])
  {
    hide Print, Written;
    WriteOne(done, c);
    assert b0 + Written(done) + (Print(c) + "\n") == b0 + (Written(done) + (Print(c) + "\n"));
  }

  lemma {:induction false} PeersCommandsSnoc(peers: seq<PeerConfig>, p: PeerConfig)
    requires forall i :: 0 <= i < |peers| ==> KeysDecode(peers[i])
    requires KeysDecode(p)
    ensures PeersCommands(peers + [p]) == PeersCommands(peers) + PeerCommands(p)
  {
    hide KeysDecode, PeerCommands;
    if peers == [] {
      assert peers + [p] == [p] && [p][1..] == [];
    } else {
      PeersCommandsSnoc(peers[1..], p);
      assert (peers + [p])[1..] == peers[1..] + [p];
    }
  }

  /** The lines of one peer, written after what the builder holds. */
  method WritePeer(p: PeerConfig, b0: string) returns (b: string)
    requires KeysDecode(p)
    ensures b == b0 + Written(PeerCommands(p))
  {
    hide Print, Written, B64ToHex, PeerCommands;
    ghost var done: seq<Command> := [];
    WrittenNothing();
    b := b0;
    var pubHex := B64ToHex(p.publicKey).value;
    Emit(b0, done, PublicKey(pubHex));
    done := [PublicKey(pubHex)];
    assert [] + done == done;
    b := b + (Print(PublicKey(pubHex)) + "\n");
    if p.presharedKey != "" {
      var pskHex := B64ToHex(p.presharedKey).value;
      Emit(b0, done, PresharedKey(pskHex));
      b := b + (Print(PresharedKey(pskHex)) + "\n");
    } else {
      assert done + PskCommands(p) == done;
    }
    done := done + PskCommands(p);
    Emit(b0, done, ReplaceAllowedIPs);
    done := done + [ReplaceAllowedIPs];
    b := b + (Print(ReplaceAllowedIPs) + "\n");
    b := WriteAllowed(p, b, b0, done);
    done := done + AllowedCommands(p.allowedIPs);
    if p.endpoint != "" {
      Emit(b0, done, Endpoint(p.endpoint));
      b := b + (Print(Endpoint(p.endpoint)) + "\n");
    } else {
      assert done + EndpointCommands(p) == done;
    }
    done := done + EndpointCommands(p);
    if p.keepalive > 0 {
      Emit(b0, done, Keepalive(p.keepalive));
      b := b + (Print(Keepalive(p.keepalive)) + "\n");
    } else {
      assert done + KeepaliveCommands(p) == done;
    }
    FlatCommands(p);
  }

  lemma FlatCommands(p: PeerConfig)
    requires KeysDecode(p)
    ensures PeerCommands(p) ==
            [PublicKey(HexOf(p))] + PskCommands(p) + [ReplaceAllowedIPs] + AllowedCommands(p.allowedIPs)
            + EndpointCommands(p) + KeepaliveCommands(p)
  {
    hide B64ToHex;
  }

  /** The address loop: one line per allowed address, in order. */
  method WriteAllowed(p: PeerConfig, b1: string, ghost b0: string, ghost done: seq<Command>) returns (b: string)
    requires b1 == b0 + Written(done)
    ensures b == b0 + Written(done + AllowedCommands(p.allowedIPs))
  {
    hide Print, Written;
    b := b1;
    assert done + AllowedCommands(p.allowedIPs[..0]) == done;
    for i := 0 to |p.allowedIPs|
      invariant b == b0 + Written(done + AllowedCommands(p.allowedIPs[..i]))
    {
      var c := AllowedIP(p.allowedIPs[i]);
      Emit(b0, done + AllowedCommands(p.allowedIPs[..i]), c);
      assert done + AllowedCommands(p.allowedIPs[..i]) + [c] == done + AllowedCommands(p.allowedIPs[..i + 1]);
      b := b + (Print(c) + "\n");
    }
    assert p.allowedIPs[..|p.allowedIPs|] == p.allowedIPs;
  }

  /** `buildUAPIConfig`: all field checks first, then the interface, then peer by peer. */
  method BuildUAPIConfig(cfg: Config) returns (r: Option<string>)
    ensures r == UapiText(cfg)
  {
    hide KeysDecode, Unbroken, HasBreak, PeerCommands, Print, Written, B64ToHex;
    if HasBreak(cfg.iface.privateKey) || HasBreak(cfg.iface.address) {
      return None;
    }
    for i := 0 to |cfg.peers|
      invariant forall k :: 0 <= k < i ==> Unbroken(cfg.peers[k])
    {
      if !Unbroken(cfg.peers[i]) {
        return None;
      }
    }
    var privHex := B64ToHex(cfg.iface.privateKey);
    if privHex.None? {
      return None;
    }
    WriteOne([], PrivateKey(privHex.value));
    assert [] + [PrivateKey(privHex.value)] == [PrivateKey(privHex.value)];
    WrittenNothing();
    var b := "" + (Print(PrivateKey(privHex.value)) + "\n");
    if cfg.iface.listenPort > 0 {
      WriteOne([PrivateKey(privHex.value)], ListenPort(cfg.iface.listenPort));
      b := b + (Print(ListenPort(cfg.iface.listenPort)) + "\n");
    }
    ghost var head := DeviceCommands(cfg.iface);
    if cfg.iface.listenPort <= 0 {
      assert head == [PrivateKey(privHex.value)];
    }
    assert b == Written(head);
    assert head + PeersCommands(cfg.peers[..0]) == head;
    for i := 0 to |cfg.peers|
      invariant forall k :: 0 <= k < i ==> KeysDecode(cfg.peers[k])
      invariant b == Written(head + PeersCommands(cfg.peers[..i]))
    {
      if !KeysDecode(cfg.peers[i]) {
        return None;
      }
      assert cfg.peers[..i + 1] == cfg.peers[..i] + [cfg.peers[i]];
      PeersCommandsSnoc(cfg.peers[..i], cfg.peers[i]);
      ghost var before := head + PeersCommands(cfg.peers[..i]);
      WriteMore(before, PeerCommands(cfg.peers[i]));
      assert before + PeerCommands(cfg.peers[i]) == head + PeersCommands(cfg.peers[..i + 1]);
      b := WritePeer(cfg.peers[i], b);
    }
    assert cfg.peers[..|cfg.peers|] == cfg.peers;
    WrittenIsScript(ConfigCommands(cfg));
    return Some(b + "\n");
  }

  lemma WrittenNothing()
    ensures Written([]) == ""
  {
  }

  lemma WrittenIsScript(commands: seq<Command>)
    ensures Script(commands) == Written(commands) + "\n"
  {
  }

  // ---- what the configuration makes of a device ----

  predicate AllReadable(cidrs: seq<string>) {
    forall i :: 0 <= i < |cidrs| ==> ReadPrefix(cidrs[i]).Some?
  }

  /** The device takes the peer: its addresses and its endpoint can be read, and the keepalive fits. */
  predicate Usable(p: PeerConfig) {
    && KeysDecode(p)
    && AllReadable(p.allowedIPs)
    && (p.endpoint != "" ==> IsEndpoint(p.endpoint))
    && p.keepalive <= MAX_UINT16
  }

  /** The networks a list of addresses denotes. */
  function Nets(cidrs: seq<string>): set<Net> {
    set cidr | cidr in cidrs && ReadPrefix(cidr).Some? :: ReadPrefix(cidr).value
  }

  function RouteTo(routes: map<Net, string>, nets: set<Net>, hex: string): map<Net, string> {
    routes + map net | net in nets :: hex
  }

  function Settings(had: DevicePeer, p: PeerConfig): DevicePeer
    requires KeysDecode(p)
  {
    DevicePeer(
      if p.presharedKey != "" then B64ToHex(p.presharedKey).value else had.presharedKey,
      if p.endpoint != "" then p.endpoint else had.endpoint,
      if p.keepalive > 0 then p.keepalive else had.keepalive)
  }

  /** The device after one peer's commands: its settings stored, and its addresses taken from whoever had them. */
  function Configure(dev: Device, p: PeerConfig): Device
    requires KeysDecode(p)
  {
    var hex := HexOf(p);
    var had := if hex in dev.peers then dev.peers[hex] else BLANK_PEER;
    dev.(peers := dev.peers[hex := Settings(had, p)],
         routes := RouteTo(DropRoutes(dev.routes, hex), Nets(p.allowedIPs), hex))
  }

  lemma NetsCons(cidrs: seq<string>)
    requires cidrs != [] && ReadPrefix(cidrs[0]).Some?
    ensures Nets(cidrs) == {ReadPrefix(cidrs[0]).value} + Nets(cidrs[1..])
  {
    hide ReadPrefix;
    assert cidrs == [cidrs[0]] + cidrs[1..];
  }

  lemma RouteToCons(routes: map<Net, string>, net: Net, nets: set<Net>, hex: string)
    ensures RouteTo(routes, {net} + nets, hex) == RouteTo(routes[net := hex], nets, hex)
  {
  }

  lemma {:induction false} ExecuteAllowed(dev: Device, hex: string, cidrs: seq<string>)
    requires hex in dev.peers
    ensures Execute(dev, Peer(hex), AllowedCommands(cidrs)) ==
            if AllReadable(cidrs) then Some((dev.(routes := RouteTo(dev.routes, Nets(cidrs), hex)), Peer(hex)))
            else None
    decreases |cidrs|
  {
    hide DropRoutes, RouteTo, ReadPrefix, Nets;
    if cidrs == [] {
      RouteToNothing(dev.routes, hex);
    } else if ReadPrefix(cidrs[0]).Some? {
      var net := ReadPrefix(cidrs[0]).value;
      var next := dev.(routes := dev.routes[net := hex]);
      assert AllowedCommands(cidrs)[1..] == AllowedCommands(cidrs[1..]);
      assert Apply(dev, Peer(hex), AllowedIP(cidrs[0])) == Some((next, Peer(hex)));
      NetsCons(cidrs);
      RouteToCons(dev.routes, net, Nets(cidrs[1..]), hex);
      ExecuteAllowed(next, hex, cidrs[1..]);
    }
  }

  lemma RouteToNothing(routes: map<Net, string>, hex: string)
    ensures RouteTo(routes, Nets([]), hex) == routes
  {
  }

  lemma ExecuteOne(dev: Device, sel: Selection, c: Command)
    ensures Execute(dev, sel, [c]) == if Accepted(c) then Apply(dev, sel, c) else None
  {
  }

  lemma ExecuteSelect(dev: Device, sel: Selection, hex: string)
    requires IsHexKey(hex)
    ensures Execute(dev, sel, [PublicKey(hex)]) ==
            Some((dev.(peers := dev.peers[hex := if hex in dev.peers then dev.peers[hex] else BLANK_PEER]), Peer(hex)))
  {
    hide IsHexKey;
    ExecuteOne(dev, sel, PublicKey(hex));
    if hex in dev.peers {
      assert dev.peers[hex := dev.peers[hex]] == dev.peers;
    }
  }

  lemma ExecutePsk(dev: Device, hex: string, p: PeerConfig)
    requires KeysDecode(p) && hex in dev.peers
    ensures var had := dev.peers[hex];
            var psk := if p.presharedKey != "" then B64ToHex(p.presharedKey).value else had.presharedKey;
            Execute(dev, Peer(hex), PskCommands(p)) ==
            Some((dev.(peers := dev.peers[hex := had.(presharedKey := psk)]), Peer(hex)))
  {
    hide B64ToHex, IsHexKey;
    if p.presharedKey != "" {
      ExecuteOne(dev, Peer(hex), PresharedKey(B64ToHex(p.presharedKey).value));
    } else {
      assert dev.peers[hex := dev.peers[hex]] == dev.peers;
    }
  }

  lemma ExecuteEndpoint(dev: Device, hex: string, p: PeerConfig)
    requires hex in dev.peers
    ensures var had := dev.peers[hex];
            Execute(dev, Peer(hex), EndpointCommands(p)) ==
            if p.endpoint != "" && !IsEndpoint(p.endpoint) then None
            else Some((dev.(peers := dev.peers[hex :=
                                      had.(endpoint := if p.endpoint != "" then p.endpoint else had.endpoint)]),
                       Peer(hex)))
  {
    hide IsEndpoint;
    if p.endpoint != "" {
      ExecuteOne(dev, Peer(hex), Endpoint(p.endpoint));
    } else {
      assert dev.peers[hex := dev.peers[hex]] == dev.peers;
    }
  }

  lemma ExecuteKeepalive(dev: Device, hex: string, p: PeerConfig)
    requires hex in dev.peers
    ensures var had := dev.peers[hex];
            Execute(dev, Peer(hex), KeepaliveCommands(p)) ==
            if p.keepalive > MAX_UINT16 then None
            else Some((dev.(peers := dev.peers[hex :=
                                      had.(keepalive := if p.keepalive > 0 then p.keepalive else had.keepalive)]),
                       Peer(hex)))
  {
    if p.keepalive > 0 {
      ExecuteOne(dev, Peer(hex), Keepalive(p.keepalive));
    } else {
      assert dev.peers[hex := dev.peers[hex]] == dev.peers;
    }
  }

  lemma ExecuteReplace(dev: Device, hex: string)
    requires hex in dev.peers
    ensures Execute(dev, Peer(hex), [ReplaceAllowedIPs]) ==
            Some((dev.(routes := DropRoutes(dev.routes, hex)), Peer(hex)))
  {
  }

  /** The commands of one peer do what `Configure` says, unless the device cannot read one of them. */
  lemma ExecutePeer(dev: Device, sel: Selection, p: PeerConfig)
    requires KeysDecode(p)
    ensures Execute(dev, sel, PeerCommands(p)) ==
            if Usable(p) then Some((Configure(dev, p), Peer(HexOf(p)))) else None
  {
    hide Execute, Apply, DropRoutes, RouteTo, B64ToHex, AllowedCommands, IsHexKey, AllReadable, Nets, IsEndpoint,
         PskCommands, EndpointCommands, KeepaliveCommands;
    var hex, at := HexOf(p), Peer(HexOf(p));
    var had := if hex in dev.peers then dev.peers[hex] else BLANK_PEER;
    var c4 := EndpointCommands(p) + KeepaliveCommands(p);
    var c3 := AllowedCommands(p.allowedIPs) + c4;
    var c2 := [ReplaceAllowedIPs] + c3;
    var c1 := PskCommands(p) + c2;
    ExecuteSelect(dev, sel, hex);
    var d1 := dev.(peers := dev.peers[hex := had]);
    ExecuteConcat(dev, sel, [PublicKey(hex)], c1);
    ExecutePsk(d1, hex, p);
    var d2 := Execute(d1, at, PskCommands(p)).value.0;
    ExecuteConcat(d1, at, PskCommands(p), c2);
    ExecuteReplace(d2, hex);
    var d3 := d2.(routes := DropRoutes(d2.routes, hex));
    ExecuteConcat(d2, at, [ReplaceAllowedIPs], c3);
    ExecuteAllowed(d3, hex, p.allowedIPs);
    ExecuteConcat(d3, at, AllowedCommands(p.allowedIPs), c4);
    var d4 := d3.(routes := RouteTo(d3.routes, Nets(p.allowedIPs), hex));
    ExecuteEndpoint(d4, hex, p);
    ExecuteConcat(d4, at, EndpointCommands(p), KeepaliveCommands(p));
    var d5 := d4.(peers := d4.peers[hex := d4.peers[hex].(
                               endpoint := if p.endpoint != "" then p.endpoint else d4.peers[hex].endpoint)]);
    ExecuteKeepalive(d5, hex, p);
    if Usable(p) {
      assert d5.peers[hex := Settings(had, p)] == dev.peers[hex := Settings(had, p)];
    }
  }

  function ConfigureAll(dev: Device, peers: seq<PeerConfig>): Device
    requires forall i :: 0 <= i < |peers| ==> KeysDecode(peers[i])
    decreases |peers|
  {
    if peers == [] then dev else ConfigureAll(Configure(dev, peers[0]), peers[1..])
  }

  predicate AllUsable(peers: seq<PeerConfig>) {
    forall i :: 0 <= i < |peers| ==> Usable(peers[i])
  }

  lemma {:induction false} ExecutePeers(dev: Device, sel: Selection, peers: seq<PeerConfig>)
    requires forall i :: 0 <= i < |peers| ==> KeysDecode(peers[i])
    ensures DeviceOf(Execute(dev, sel, PeersCommands(peers))) ==
            if AllUsable(peers) then Some(ConfigureAll(dev, peers)) else None
    decreases |peers|
  {
    hide KeysDecode, PeerCommands, Configure, Apply;
    if peers != [] {
      ExecutePeer(dev, sel, peers[0]);
      ExecuteConcat(dev, sel, PeerCommands(peers[0]), PeersCommands(peers[1..]));
      assert AllUsable(peers) <==> Usable(peers[0]) && AllUsable(peers[1..]);
      if Usable(peers[0]) {
        ExecutePeers(Configure(dev, peers[0]), Peer(HexOf(peers[0])), peers[1..]);
      }
    }
  }

  /** A device that has its own key and port and no peer yet. */
  function BareDevice(iface: InterfaceConfig): Device
    requires B64ToHex(iface.privateKey).Some?
  {
    Device(B64ToHex(iface.privateKey).value, if iface.listenPort > 0 then iface.listenPort else 0, map[], map[])
  }

  lemma ExecuteDevice(iface: InterfaceConfig)
    requires B64ToHex(iface.privateKey).Some? && iface.listenPort <= MAX_UINT16
    ensures Execute(BLANK_DEVICE, NoPeer, DeviceCommands(iface)) == Some((BareDevice(iface), NoPeer))
  {
    hide B64ToHex, IsHexKey;
    var first := PrivateKey(B64ToHex(iface.privateKey).value);
    ExecuteOne(BLANK_DEVICE, NoPeer, first);
    var mid := Apply(BLANK_DEVICE, NoPeer, first).value;
    if iface.listenPort > 0 {
      ExecuteOne(mid.0, mid.1, ListenPort(iface.listenPort));
      ExecuteConcat(BLANK_DEVICE, NoPeer, [first], [ListenPort(iface.listenPort)]);
    } else {
      assert DeviceCommands(iface) == [first];
    }
  }

  // ---- starting from a file ----

  /** The device a start from this configuration brings up, if it comes up: `New`, and then `Start`. */
  function Boot(cfg: Config): Option<Device> {
    if cfg.iface.privateKey == "" || cfg.iface.address == "" then None
    else
      match UapiText(cfg)
      case None => None
      case Some(text) => IpcSet(BLANK_DEVICE, text)
  }

  predicate CleanAddresses(peers: seq<PeerConfig>) {
    forall i, j :: 0 <= i < |peers| && 0 <= j < |peers[i].allowedIPs| ==> '\n' !in peers[i].allowedIPs[j]
  }

  predicate Bootable(cfg: Config) {
    cfg.iface.address != "" && Buildable(cfg) && AllUsable(cfg.peers)
  }

  lemma NoKeyNoHex()
    ensures B64ToHex("").None?
  {
  }

  lemma HexIsClean(hex: string)
    requires IsHexKey(hex)
    ensures '\n' !in hex
  {
  }

  lemma PeerCommandsClean(p: PeerConfig)
    requires KeysDecode(p) && Unbroken(p) && CleanAddresses([p])
    ensures CleanCommands(PeerCommands(p))
  {
    hide B64ToHex, IsHexKey, AllowedCommands;
    HexIsClean(HexOf(p));
    if p.presharedKey != "" {
      HexIsClean(B64ToHex(p.presharedKey).value);
    }
    DigitsAreClean(if p.keepalive > 0 then p.keepalive else 0);
    AllowedClean(p);
    var c4 := EndpointCommands(p) + KeepaliveCommands(p);
    CleanConcat(EndpointCommands(p), KeepaliveCommands(p));
    CleanConcat(AllowedCommands(p.allowedIPs), c4);
    CleanConcat([ReplaceAllowedIPs], AllowedCommands(p.allowedIPs) + c4);
    CleanConcat(PskCommands(p), [ReplaceAllowedIPs] + (AllowedCommands(p.allowedIPs) + c4));
    CleanConcat([PublicKey(HexOf(p))], PskCommands(p) + ([ReplaceAllowedIPs] + (AllowedCommands(p.allowedIPs) + c4)));
  }

  lemma AllowedClean(p: PeerConfig)
    requires CleanAddresses([p])
    ensures CleanCommands(AllowedCommands(p.allowedIPs))
  {
    forall j | 0 <= j < |p.allowedIPs| ensures '\n' !in Argument(AllowedCommands(p.allowedIPs)[j]) {
      assert p == [p][0] && '\n' !in [p][0].allowedIPs[j];
    }
  }

  lemma DigitsAreClean(n: nat)
    ensures '\n' !in Decimal.FormatNat(n)
  {
  }

  lemma {:induction false} PeersCommandsClean(peers: seq<PeerConfig>)
    requires forall i :: 0 <= i < |peers| ==> KeysDecode(peers[i]) && Unbroken(peers[i])
    requires CleanAddresses(peers)
    ensures CleanCommands(PeersCommands(peers))
  {
    hide KeysDecode, Unbroken, PeerCommands, Argument;
    if peers != [] {
      assert CleanAddresses([peers[0]]) by {
        assert [peers[0]][0] == peers[0];
      }
      PeerCommandsClean(peers[0]);
      PeersCommandsClean(peers[1..]);
    }
  }

  lemma DeviceCommandsClean(iface: InterfaceConfig)
    requires B64ToHex(iface.privateKey).Some?
    ensures CleanCommands(DeviceCommands(iface))
  {
  }

  /** Printing the configuration and letting the device read it comes to configuring the peers one after another. */
  lemma BootMeaning(cfg: Config)
    requires CleanAddresses(cfg.peers) && cfg.iface.listenPort <= MAX_UINT16
    ensures Boot(cfg).Some? <==> Bootable(cfg)
    ensures Boot(cfg).Some? ==> Boot(cfg) == Some(ConfigureAll(BareDevice(cfg.iface), cfg.peers))
  {
    hide KeysDecode, Unbroken, HasBreak, B64ToHex, Execute, CleanCommands, IpcSet, Script, PeersCommands,
         DeviceCommands;
    NoKeyNoHex();
    if Buildable(cfg) {
      var commands := ConfigCommands(cfg);
      DeviceCommandsClean(cfg.iface);
      PeersCommandsClean(cfg.peers);
      CleanConcat(DeviceCommands(cfg.iface), PeersCommands(cfg.peers));
      ScriptMeaning(BLANK_DEVICE, commands);
      ExecuteDevice(cfg.iface);
      ExecuteConcat(BLANK_DEVICE, NoPeer, DeviceCommands(cfg.iface), PeersCommands(cfg.peers));
      ExecutePeers(BareDevice(cfg.iface), NoPeer, cfg.peers);
    }
  }

  lemma CleanConcat(a: seq<Command>, b: seq<Command>)
    requires CleanCommands(a) && CleanCommands(b)
    ensures CleanCommands(a + b)
  {
  }

  // ---- one peer on the running device ----

  function LiveAdd(dev: Device, pubKey: string, cidr: string): Option<Device> {
    if HasBreak(pubKey) || HasBreak(cidr) then None
    else
      match B64ToHex(pubKey)
      case None => None
      case Some(hex) => IpcSet(dev, Script([PublicKey(hex), AllowedIP(cidr)]))
  }

  function LiveRemove(dev: Device, pubKey: string): Option<Device> {
    if HasBreak(pubKey) then None
    else
      match B64ToHex(pubKey)
      case None => None
      case Some(hex) => IpcSet(dev, Script([PublicKey(hex), Remove]))
  }

  lemma ExecuteTwo(dev: Device, a: Command, b: Command)
    ensures Execute(dev, NoPeer, [a, b]) ==
            if !Accepted(a) || Apply(dev, NoPeer, a).None? || !Accepted(b) then None
            else Apply(Apply(dev, NoPeer, a).value.0, Apply(dev, NoPeer, a).value.1, b)
  {
    hide Apply, Accepted;
    ExecuteOne(dev, NoPeer, a);
    ExecuteConcat(dev, NoPeer, [a], [b]);
    assert [a] + [b] == [a, b];
    if Accepted(a) && Apply(dev, NoPeer, a).Some? {
      ExecuteOne(Apply(dev, NoPeer, a).value.0, Apply(dev, NoPeer, a).value.1, b);
    }
  }

  /** Adding keeps a known peer's settings and routes one more network to it; an unreadable address is refused. */
  lemma LiveAddMeaning(dev: Device, pubKey: string, cidr: string)
    requires !HasBreak(pubKey) && !HasBreak(cidr) && B64ToHex(pubKey).Some?
    ensures var hex := B64ToHex(pubKey).value;
            LiveAdd(dev, pubKey, cidr) ==
            if ReadPrefix(cidr).None? then None
            else Some(dev.(peers := if hex in dev.peers then dev.peers else dev.peers[hex := BLANK_PEER],
                           routes := dev.routes[ReadPrefix(cidr).value := hex]))
  {
    hide B64ToHex, IsHexKey, Script, IpcSet, ReadPrefix;
    var hex := B64ToHex(pubKey).value;
    HexIsClean(hex);
    ScriptMeaning(dev, [PublicKey(hex), AllowedIP(cidr)]);
    ExecuteTwo(dev, PublicKey(hex), AllowedIP(cidr));
  }

  /** Removing takes the peer and its addresses off the device, whether or not it was there. */
  lemma LiveRemoveMeaning(dev: Device, pubKey: string)
    requires !HasBreak(pubKey) && B64ToHex(pubKey).Some?
    ensures LiveRemove(dev, pubKey) == Some(DropPeer(dev, B64ToHex(pubKey).value))
  {
    hide B64ToHex, IsHexKey, Script, IpcSet;
    var hex := B64ToHex(pubKey).value;
    HexIsClean(hex);
    ScriptMeaning(dev, [PublicKey(hex), Remove]);
    ExecuteTwo(dev, PublicKey(hex), Remove);
    assert dev.peers[hex := BLANK_PEER] - {hex} == dev.peers - {hex};
  }

  /** The server object: no device before start or after close. */
  class Server {
    var device: Option<Device>

    constructor ()
      ensures device == None
    {
      device := None;
    }

    /** `refused` stands for a failure of the device itself, which changes nothing. */
    method AddPeer(pubKeyB64: string, allowedCIDR: string, refused: bool) returns (ok: bool)
      modifies this
      ensures ok <==> old(device).Some? && !refused && LiveAdd(old(device).value, pubKeyB64, allowedCIDR).Some?
      ensures device == if ok then LiveAdd(old(device).value, pubKeyB64, allowedCIDR) else old(device)
    {
      if device.None? || HasBreak(pubKeyB64) || HasBreak(allowedCIDR) {
        return false;
      }
      var pubHex := B64ToHex(pubKeyB64);
      if pubHex.None? {
        return false;
      }
      var next := IpcSet(device.value, Script([PublicKey(pubHex.value), AllowedIP(allowedCIDR)]));
      if refused || next.None? {
        return false;
      }
      device := next;
      return true;
    }

    method RemovePeer(pubKeyB64: string, refused: bool) returns (ok: bool)
      modifies this
      ensures ok <==> old(device).Some? && !refused && LiveRemove(old(device).value, pubKeyB64).Some?
      ensures device == if ok then LiveRemove(old(device).value, pubKeyB64) else old(device)
    {
      if device.None? || HasBreak(pubKeyB64) {
        return false;
      }
      var pubHex := B64ToHex(pubKeyB64);
      if pubHex.None? {
        return false;
      }
      var next := IpcSet(device.value, Script([PublicKey(pubHex.value), Remove]));
      if refused || next.None? {
        return false;
      }
      device := next;
      return true;
    }
  }
}
