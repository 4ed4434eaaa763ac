/** What a healthy `wg0.conf` is, and that adding and removing a peer keep it healthy. */
module PeerState {
  import opened Wrappers
  import opened Text
  import opened KeyCodec
  import opened WgConfig
  import opened ConfFile
  import opened ConfEdits
  import opened ConfAppend
  import opened Prefixes
  import opened WgServer
  import opened LiveAgreement
  import opened Octets
  import opened Peers
  import Decimal
  import Uapi

  // ---- parsed values are single-line ----

  predicate CleanState(st: ParserState) {
    CleanAddresses(st.Peers()) && 0 <= st.iface.listenPort <= 65535
  }

  lemma {:induction false} CleanPieces(pieces: seq<string>)
    requires forall i :: 0 <= i < |pieces| ==> '\n' !in pieces[i]
    ensures forall i :: 0 <= i < |Addresses(pieces)| ==> '\n' !in Addresses(pieces)[i]
  {
    hide TrimSpace;
    if pieces != [] {
      CleanPieces(pieces[1..]);
      TrimSpaceChars(pieces[0]);
    }
  }

  lemma CleanList(value: string)
    requires '\n' !in value
    ensures forall i :: 0 <= i < |Addresses(Split(value, ','))| ==> '\n' !in Addresses(Split(value, ','))[i]
  {
    hide Split;
    SplitPieces(value, ',');
    CleanPieces(Split(value, ','));
  }

  lemma CleanPeers(before: seq<PeerConfig>, p: PeerConfig)
    requires CleanAddresses(before) && forall j :: 0 <= j < |p.allowedIPs| ==> '\n' !in p.allowedIPs[j]
    ensures CleanAddresses(before + [p])
  {
  }

  lemma CleanSetPeer(p: PeerConfig, key: string, value: string)
    requires '\n' !in value && (forall j :: 0 <= j < |p.allowedIPs| ==> '\n' !in p.allowedIPs[j])
    requires SetPeer(p, key, value).Ok?
    ensures var r := SetPeer(p, key, value).value; forall j :: 0 <= j < |r.allowedIPs| ==> '\n' !in r.allowedIPs[j]
  {
    hide Split, Addresses, Decimal.Atoi, ToLower;
    CleanList(value);
  }

  lemma CleanAssign(st: ParserState, key: string, value: string)
    requires CleanState(st) && '\n' !in value && Assign(st, key, value).Ok?
    ensures CleanState(Assign(st, key, value).value)
  {
    hide SetPeer, Decimal.Atoi, ToLower, TrimSpace;
    if st.section == InPeer {
      var p := if st.pending.Some? then st.pending.value else EMPTY_PEER;
      assert st.pending.Some? ==> p == st.Peers()[|st.committed|];
      assert forall i :: 0 <= i < |st.committed| ==> st.committed[i] == st.Peers()[i];
      CleanSetPeer(p, key, value);
      CleanPeers(st.committed, SetPeer(p, key, value).value);
    }
  }

  lemma CleanStep(st: ParserState, raw: string)
    requires CleanState(st) && '\n' !in raw && Step(st, raw).Ok?
    ensures CleanState(Step(st, raw).value)
  {
    hide TrimSpace, IndexOf, HeaderName, Assign, CleanAddresses;
    var at := IndexOf(raw, '#');
    TrimSpaceChars(if at >= 0 then raw[..at] else raw);
    var line := StripLine(raw);
    if line != "" && IsBracketed(line) {
      CleanPeers(st.Peers(), EMPTY_PEER);
    } else if line != "" {
      var eq := IndexOf(line, '=');
      if eq >= 0 {
        assert '\n' !in line;
        assert '\n' !in line[eq + 1..];
        TrimSpaceChars(line[eq + 1..]);
        CleanAssign(st, TrimSpace(line[..eq]), TrimSpace(line[eq + 1..]));
      }
    }
  }

  lemma {:induction false} CleanRun(st: ParserState, lines: seq<string>)
    requires CleanState(st) && NoNewlines(lines) && Run(st, lines).Ok?
    ensures CleanState(Run(st, lines).value)
    decreases |lines|
  {
    hide Step, CleanState;
    if lines != [] {
      CleanStep(st, lines[0]);
      CleanRun(Step(st, lines[0]).value, lines[1..]);
    }
  }

  /** No parsed address holds a newline, and the port is in range. */
  lemma ParsedIsClean(content: string)
    requires Parse(content).Ok?
    ensures CleanAddresses(Parse(content).value.peers) && 0 <= Parse(content).value.iface.listenPort <= 65535
  {
    hide Step, Split, Parse;
    ParseSplit(content);
    SplitPieces(content, '\n');
    CleanRun(START, Split(content, '\n'));
  }

  // ---- healthy files ----

  predicate Sound(cfg: Config) {
    Bootable(cfg) && UniqueKeys(cfg.peers) && DisjointAddresses(cfg.peers)
  }

  ghost predicate Healthy(content: string) {
    WF(content) && Parse(content).Ok? && Sound(Parse(content).value)
  }

  /** The device a restart from the file would bring up. */
  function Restart(content: string): Option<Uapi.Device> {
    match Parse(content)
    case Err(_) => None
    case Ok(cfg) => Boot(cfg)
  }

  function DeviceFor(cfg: Config): Uapi.Device
    requires Bootable(cfg)
  {
    ConfigureAll(BareDevice(cfg.iface), cfg.peers)
  }

  lemma RestartMeaning(content: string)
    requires Healthy(content)
    ensures Restart(content) == Some(DeviceFor(Parse(content).value))
    ensures var cfg := Parse(content).value; Described(DeviceFor(cfg), BareDevice(cfg.iface), cfg.peers)
  {
    hide WF, Parse, UniqueKeys, DisjointAddresses, CleanAddresses, B64ToHex, KeysDecode, Unbroken,
         ConfigureAll, Described, AllUsable;
    ParsedIsClean(content);
    BootMeaning(Parse(content).value);
    ConfiguredDevice(BareDevice(Parse(content).value.iface), Parse(content).value.peers);
  }

  // ---- the address handed out ----

  function NewOctet(cfg: Config): nat {
    NextOctet(UsedBy(cfg.peers) + {SERVER_OCTET})
  }

  /** The single host the new address denotes. */
  function NewNet(cfg: Config): Net {
    Net4(SUBNET + NewOctet(cfg), 32)
  }

  lemma NewAddressReads(cfg: Config)
    ensures 2 <= NewOctet(cfg) <= 254
    ensures ReadPrefix(NewAddress(cfg) + "/32") == Some(NewNet(cfg))
    ensures LastOctet(NewAddress(cfg) + "/32") == Some(NewOctet(cfg))
    ensures PlainValue(NewAddress(cfg)) && !HasBreak(NewAddress(cfg) + "/32")
  {
    hide LastOctet, ReadPrefix, FirstFree, UsedBy, AddressOf, PlainValue, HasBreak;
    FirstFreeChosen(UsedBy(cfg.peers) + {SERVER_OCTET}, 2);
    OctetOfAddress(NewOctet(cfg));
    AddressIsPlain(NewOctet(cfg));
  }

  /** While the pool is open the new address is nobody's on the device, however the others are written. */
  lemma OpenPoolFresh(cfg: Config)
    requires PoolOpen(UsedBy(cfg.peers))
    ensures !Listed(cfg.peers, NewNet(cfg))
  {
    hide LastOctet, ReadPrefix, NextOctet, UsedBy, PoolOpen;
    NewAddressReads(cfg);
    FreeWhileOpen(UsedBy(cfg.peers));
    if Listed(cfg.peers, NewNet(cfg)) {
      var i :| 0 <= i < |cfg.peers| && NewNet(cfg) in Nets(cfg.peers[i].allowedIPs);
      var cidr :| cidr in cfg.peers[i].allowedIPs && ReadPrefix(cidr) == Some(NewNet(cfg));
      HostOctet(cidr, SUBNET + NewOctet(cfg));
      UsedMember(cfg.peers, i, cidr);
      assert false;
    }
  }

  /** The new peer's octet is its own if and only if some octet from 2 to 254 was unused. */
  lemma NewOctetApart(cfg: Config, pubKey: string)
    requires OctetsApart(cfg.peers)
    ensures OctetsApart(ConfigPlus(cfg, pubKey).peers) <==> PoolOpen(UsedBy(cfg.peers))
  {
    hide LastOctet, NextOctet, UsedBy, PoolOpen, OctetsApart, OctetsIn, NewAddress;
    NewAddressReads(cfg);
    FreeWhileOpen(UsedBy(cfg.peers));
    OctetsOfOne(NewAddress(cfg) + "/32");
    ApartPlus(cfg.peers, NewPeer(pubKey, NewAddress(cfg) + "/32"), NewOctet(cfg));
  }

  /** One peer that lists every address of the pool. */
  function WholePool(pubKey: string): PeerConfig {
    EMPTY_PEER.(publicKey := pubKey, allowedIPs := seq(253, i requires 0 <= i < 253 => AddressOf(i + 2) + "/32"))
  }

  /** With all 253 addresses listed the next peer is given the address of 254 a second time. */
  lemma PoolRunsOut(iface: InterfaceConfig, first: string, second: string)
    ensures var cfg := Config(iface, [WholePool(first)]);
            OctetsApart(cfg.peers) && DisjointAddresses(cfg.peers) && NewAddress(cfg) == AddressOf(254) &&
            !OctetsApart(ConfigPlus(cfg, second).peers) && !DisjointAddresses(ConfigPlus(cfg, second).peers)
  {
    hide AddressOf, LastOctet, ReadPrefix, NextOctet, UsedBy, OctetsIn;
    var p := WholePool(first);
    var cfg := Config(iface, [p]);
    forall k | 2 <= k <= 254 ensures k in UsedBy(cfg.peers) {
      assert p.allowedIPs[k - 2] == AddressOf(k) + "/32";
      OctetOfAddress(k);
      UsedMember(cfg.peers, 0, AddressOf(k) + "/32");
    }
    FreeWhileOpen(UsedBy(cfg.peers));
    forall i | 0 <= i < 253 ensures LastOctet(p.allowedIPs[i]) != Some(SERVER_OCTET) {
      OctetOfAddress(i + 2);
    }
    ServerIsOutside(p.allowedIPs);
    NewOctetApart(cfg, second);
    NewAddressReads(cfg);
    var all := ConfigPlus(cfg, second).peers;
    assert all[0] == p && p.allowedIPs[252] == AddressOf(254) + "/32" == NewAddress(cfg) + "/32";
    assert all[1].allowedIPs[0] == NewAddress(cfg) + "/32";
    assert NewNet(cfg) in Nets(all[0].allowedIPs) && NewNet(cfg) in Nets(all[1].allowedIPs);
  }

  lemma {:induction false} ServerIsOutside(cidrs: seq<string>)
    requires forall i :: 0 <= i < |cidrs| ==> LastOctet(cidrs[i]) != Some(SERVER_OCTET)
    ensures SERVER_OCTET !in OctetsIn(cidrs)
  {
    hide LastOctet;
    if cidrs != [] {
      ServerIsOutside(cidrs[..|cidrs| - 1]);
    }
  }

  /** Nine peers of at most 28 addresses leave the pool open. */
  const MAX_LISTED := 28

  predicate ShortLists(peers: seq<PeerConfig>) {
    forall i :: 0 <= i < |peers| ==> |peers[i].allowedIPs| <= MAX_LISTED
  }

  lemma {:induction false} CountShort(peers: seq<PeerConfig>)
    requires ShortLists(peers)
    ensures CidrCount(peers) <= MAX_LISTED * |peers|
  {
    if peers != [] {
      CountShort(peers[..|peers| - 1]);
    }
  }

  /** Below the limit of ten peers, lists of at most 28 addresses cannot exhaust the pool. */
  lemma ShortListsLeaveRoom(peers: seq<PeerConfig>)
    requires ShortLists(peers) && |peers| < MAX_PEERS
    ensures PoolOpen(UsedBy(peers))
  {
    hide UsedBy, CidrCount, PoolOpen, NextOctet;
    CountShort(peers);
    OctetBound(peers);
  }

  // ---- adding ----

  lemma DigitsArePlain(n: nat)
    ensures forall i :: 0 <= i < |Decimal.FormatNat(n)| ==>
              var c := Decimal.FormatNat(n)[i];
              !IsSpace(c) && c != '#' && c != ',' && c != '\n' && c != '\r'
  {
  }

  lemma AddressIsPlain(n: nat)
    ensures PlainValue(AddressOf(n)) && !HasBreak(AddressOf(n) + "/32")
  {
    hide Decimal.FormatNat;
    DigitsArePlain(n);
  }

  lemma KeyIsPlain(key: seq<byte>)
    requires |key| == KEY_LENGTH
    ensures PlainValue(Encode(key)) && !HasBreak(Encode(key))
  {
    hide Encode;
    EncodeAlphabet(key);
    forall i | 0 <= i < |Encode(key)|
      ensures !IsSpace(Encode(key)[i]) && Encode(key)[i] != '#' && Encode(key)[i] != ','
    {
      assert IsEncodedChar(Encode(key)[i]);
    }
  }

  lemma NameIsPlain(name: string)
    requires LegalName(name)
    ensures PlainValue(name)
  {
  }

  lemma KeyIsFresh(peers: seq<PeerConfig>, p: PeerConfig)
    requires UniqueKeys(peers) && HexOf(p) !in Keys(peers)
    ensures UniqueKeys(peers + [p])
  {
  }

  lemma AddressIsFresh(peers: seq<PeerConfig>, p: PeerConfig, net: Net)
    requires DisjointAddresses(peers) && Nets(p.allowedIPs) == {net}
    ensures DisjointAddresses(peers + [p]) <==> !Listed(peers, net)
  {
    hide Nets;
    var all := peers + [p];
    assert all[|peers|] == p;
    if !Listed(peers, net) {
      forall i, j, other | 0 <= i < j < |all| && other in Nets(all[i].allowedIPs)
        ensures other !in Nets(all[j].allowedIPs)
      {
        assert j < |peers| ==> all[j] == peers[j];
      }
    } else {
      var i :| 0 <= i < |peers| && net in Nets(peers[i].allowedIPs);
      assert all[i] == peers[i] && net in Nets(all[i].allowedIPs) && net in Nets(all[|peers|].allowedIPs);
    }
  }

  function ConfigPlus(cfg: Config, pubKey: string): Config {
    cfg.(peers := cfg.peers + [NewPeer(pubKey, NewAddress(cfg) + "/32")])
  }

  lemma SoundAdd(cfg: Config, key: seq<byte>)
    requires Sound(cfg) && |cfg.peers| < MAX_PEERS
    requires |key| == KEY_LENGTH && ToHex(key) !in Keys(cfg.peers)
    ensures Bootable(ConfigPlus(cfg, Encode(key)))
    ensures Sound(ConfigPlus(cfg, Encode(key))) <==> !Listed(cfg.peers, NewNet(cfg))
  {
    hide Encode, B64ToHex, ToHex, NewAddress, NewNet, Keys, LastOctet, UsedBy, ReadPrefix, PlainValue,
         DisjointAddresses, UniqueKeys, Listed, Nets;
    var p := NewPeer(Encode(key), NewAddress(cfg) + "/32");
    GeneratedKeyAccepted(key);
    KeyIsPlain(key);
    NewAddressReads(cfg);
    KeyIsFresh(cfg.peers, p);
    NetsOfOne(NewAddress(cfg) + "/32");
    AddressIsFresh(cfg.peers, p, NewNet(cfg));
  }

  /** The file after an `Add` has that one peer more, and is healthy exactly if the new address was not listed yet. */
  lemma HealthyAdd(content: string, name: string, key: seq<byte>)
    requires Healthy(content) && |Parse(content).value.peers| < MAX_PEERS
    requires LegalName(name) && |key| == KEY_LENGTH && ToHex(key) !in Keys(Parse(content).value.peers)
    ensures var cfg := Parse(content).value;
            var next := Appended(content, name, Encode(key), NewAddress(cfg));
            Parse(next) == Ok(ConfigPlus(cfg, Encode(key))) && (Healthy(next) <==> !Listed(cfg.peers, NewNet(cfg)))
  {
    hide WF, Parse, Sound, Encode, LegalName, PlainValue, ToHex, Keys, NewAddress, UsedBy, Appended, NewNet, Listed;
    var cfg := Parse(content).value;
    NameIsPlain(name);
    KeyIsPlain(key);
    NewAddressReads(cfg);
    AppendBlocks(content, name, Encode(key), NewAddress(cfg));
    AppendParses(content, name, Encode(key), NewAddress(cfg));
    SoundAdd(cfg, key);
  }

  // ---- removing ----

  lemma SoundDrop(cfg: Config, i: nat)
    requires Sound(cfg) && i < |cfg.peers|
    ensures Sound(cfg.(peers := DropAt(cfg.peers, i)))
  {
    hide HexOf, KeysDecode, Unbroken, Usable, HasBreak, B64ToHex, Nets;
    var left := DropAt(cfg.peers, i);
    assert forall k :: 0 <= k < |left| ==> left[k] == cfg.peers[if k < i then k else k + 1];
  }

  /** Removing a peer from a healthy file leaves it healthy, without that peer. */
  lemma HealthyDrop(content: string, i: nat)
    requires Healthy(content) && i < |Parse(content).value.peers|
    ensures WithoutBlock(content, i).Some? && Healthy(WithoutBlock(content, i).value)
    ensures Parse(WithoutBlock(content, i).value) ==
            Ok(Parse(content).value.(peers := DropAt(Parse(content).value.peers, i)))
  {
    hide WF, Parse, Sound, WithoutBlock;
    RemovalCommutes(content, i);
    SoundDrop(Parse(content).value, i);
  }
}
