/** A file with every address of the pool in it, and what the next `Add` makes of it. */
module PoolLimits {
  import opened Wrappers
  import opened Text
  import opened Cutting
  import opened KeyCodec
  import opened WgConfig
  import opened Sections
  import opened ConfFile
  import opened ConfEdits
  import opened ConfAppend
  import opened Prefixes
  import opened WgServer
  import opened LiveAgreement
  import opened Octets
  import opened Peers
  import opened PeerState
  import opened PeerRuns
  import opened PeerTheorems
  import opened PeerLimits
  import opened Install
  import Uapi

  // ---- a long address list, one line each ----

  function AllowedLines(cidrs: seq<string>): (r: seq<string>)
    ensures |r| == |cidrs|
    ensures forall i :: 0 <= i < |r| ==> r[i] == Setting("AllowedIPs", cidrs[i])
  {
    seq(|cidrs|, i requires 0 <= i < |cidrs| => Setting("AllowedIPs", cidrs[i]))
  }

  predicate PlainValues(cidrs: seq<string>) {
    forall i :: 0 <= i < |cidrs| ==> PlainValue(cidrs[i])
  }

  /** The lines append their addresses in order, and are no header to anyone. */
  lemma {:induction false} AllowedLinesRun(st: ParserState, cidrs: seq<string>)
    requires st.section == InPeer && st.pending.Some? && PlainValues(cidrs)
    ensures Run(st, AllowedLines(cidrs)) ==
            Ok(st.(pending := Some(st.pending.value.(allowedIPs := st.pending.value.allowedIPs + cidrs))))
    ensures forall i :: 0 <= i < |cidrs| ==> PlainLine(AllowedLines(cidrs)[i]) && '\n' !in AllowedLines(cidrs)[i]
    decreases |cidrs|
  {
    hide Step, Assign, PlainValue, PlainLine, Setting;
    var had := st.pending.value.allowedIPs;
    if cidrs == [] {
      assert had + cidrs == had;
    } else {
      var next := st.(pending := Some(st.pending.value.(allowedIPs := had + [cidrs[0]])));
      AllowedLine(st, cidrs[0]);
      AllowedLinesRun(next, cidrs[1..]);
      assert AllowedLines(cidrs)[1..] == AllowedLines(cidrs[1..]);
      assert had + [cidrs[0]] + cidrs[1..] == had + cidrs;
      forall i | 1 <= i < |cidrs| ensures PlainLine(AllowedLines(cidrs)[i]) && '\n' !in AllowedLines(cidrs)[i] {
        assert AllowedLines(cidrs)[i] == AllowedLines(cidrs[1..])[i - 1];
      }
    }
  }

  lemma AllowedLine(st: ParserState, cidr: string)
    requires st.section == InPeer && st.pending.Some? && PlainValue(cidr)
    ensures Step(st, Setting("AllowedIPs", cidr)) ==
            Ok(st.(pending := Some(st.pending.value.(allowedIPs := st.pending.value.allowedIPs + [cidr]))))
    ensures PlainLine(Setting("AllowedIPs", cidr)) && '\n' !in Setting("AllowedIPs", cidr)
  {
    hide Step, Assign, PlainValue, PlainLine;
    KeywordsArePlain();
    PlainIsClean("AllowedIPs");
    PlainIsClean(cidr);
    SettingLine(st, "AllowedIPs", cidr);
    AssignMore(st, cidr);
  }

  // ---- the file ----

  function OtherAddresses(): (r: seq<string>)
    ensures |r| == 252
    ensures forall i :: 0 <= i < 252 ==> r[i] == AddressOf(i + 3) + "/32"
  {
    seq(252, i requires 0 <= i < 252 => AddressOf(i + 3) + "/32")
  }

  function FullBlock(key: string): seq<string> {
    FirstBlock(key) + AllowedLines(OtherAddresses())
  }

  /** The installed file, whose one peer was given all the other addresses too. */
  function FullText(serverKey: string, key: string): string {
    Unlines(Preamble(serverKey) + FullBlock(key))
  }

  function FullConfig(serverKey: string, key: string): Config {
    Config(InterfaceConfig(serverKey, SERVER_ADDRESS, 51820), [WholePool(key)])
  }

  lemma OthersArePlain()
    ensures PlainValues(OtherAddresses())
  {
    hide AddressOf, PlainValue;
    forall i | 0 <= i < 252 ensures PlainValue(OtherAddresses()[i]) {
      AddressIsPlain(i + 3);
      CidrIsPlain(AddressOf(i + 3));
    }
  }

  lemma FullBlockRuns(key: string)
    requires PlainValue(key)
    ensures IsPeerBlock(FullBlock(key)) && BlockRun(FullBlock(key)).Ok? && BlockPeer(FullBlock(key)) == WholePool(key)
    ensures forall i :: 0 <= i < |FullBlock(key)| ==> '\n' !in FullBlock(key)[i]
  {
    hide PlainValue, AddressOf, FirstBlock, PlainLine, Run, IsPeerMark, IsHeader, AllowedLines, OtherAddresses;
    var first, more := FirstBlock(key), AllowedLines(OtherAddresses());
    var st := PEER_START.(pending := Some(NewPeer(key, FIRST_ADDRESS)));
    FirstBlockRuns(key);
    FirstBlockIsClean(key);
    OthersArePlain();
    AllowedLinesRun(st, OtherAddresses());
    assert FullBlock(key)[1..] == first[1..] + more;
    RunConcat(PEER_START, first[1..], more);
    assert [FIRST_ADDRESS] + OtherAddresses() == WholePool(key).allowedIPs;
    PeerOfRun(FullBlock(key), WholePool(key));
  }

  lemma FirstBlockIsClean(key: string)
    requires PlainValue(key)
    ensures forall i :: 0 <= i < |FirstBlock(key)| ==> '\n' !in FirstBlock(key)[i]
  {
    hide PlainValue, AddressOf;
    PlainIsClean(key);
    FirstAddressIsPlain();
  }

  lemma FullParses(serverKey: string, key: string)
    requires PlainValue(serverKey) && PlainValue(key)
    ensures WF(FullText(serverKey, key)) && Parse(FullText(serverKey, key)) == Ok(FullConfig(serverKey, key))
  {
    hide PlainValue, Preamble, FullBlock, WF, BlockRun, BlockPeer, Parse, IsPeerBlock, IsPreamble, WholePool;
    var head, block := Preamble(serverKey), FullBlock(key);
    var blocks := [head, block];
    assert blocks[1..] == [block];
    FlattenTwo(head, block);
    PreambleLines(serverKey);
    PreambleRuns(serverKey);
    FullBlockRuns(key);
    InstalledClean(serverKey, key);
    assert CleanBlocks(blocks) by {
      assert [head, FirstBlock(key)][0] == head;
    }
    ConcatTexts(blocks);
    JoinedBlocks(blocks);
    ParseBlocks(blocks);
    assert BlockPeersOf([block]) == [WholePool(key)];
  }

  lemma WholePoolUsable(key: seq<byte>)
    requires |key| == KEY_LENGTH
    ensures var p := WholePool(Encode(key)); Usable(p) && Unbroken(p) && HexOf(p) == ToHex(key)
  {
    hide Encode, ToHex, B64ToHex, HasBreak, AddressOf, ReadPrefix, LastOctet, PlainValue, IsEndpoint;
    var p := WholePool(Encode(key));
    KeyIsPlain(key);
    GeneratedKeyAccepted(key);
    ServerAddressUnbroken();
    forall i | 0 <= i < |p.allowedIPs| ensures ReadPrefix(p.allowedIPs[i]).Some? {
      OctetOfAddress(i + 2);
    }
  }

  lemma FullIsSound(serverKey: seq<byte>, key: seq<byte>)
    requires |serverKey| == KEY_LENGTH && |key| == KEY_LENGTH
    ensures var cfg := FullConfig(Encode(serverKey), Encode(key));
            Sound(cfg) && Keys(cfg.peers) == {ToHex(key)} && |cfg.peers| == 1
  {
    hide Encode, ToHex, B64ToHex, HasBreak, AddressOf, WholePool, Usable, Unbroken, HexOf, Nets;
    KeyIsPlain(serverKey);
    GeneratedKeyAccepted(serverKey);
    WholePoolUsable(key);
    UsableDecodes(WholePool(Encode(key)));
    ServerAddressUnbroken();
    KeysOfOne(WholePool(Encode(key)));
  }

  /** It is a file a relay starts from, healthy and with the octets apart, and no octet is left. */
  lemma FullIsHealthy(serverKey: seq<byte>, key: seq<byte>)
    requires |serverKey| == KEY_LENGTH && |key| == KEY_LENGTH
    ensures var text := FullText(Encode(serverKey), Encode(key));
            Healthy(text) && ApartFile(text) && !OctetLeft(text) &&
            Parse(text) == Ok(FullConfig(Encode(serverKey), Encode(key))) &&
            Listed(Parse(text).value.peers, NewNet(Parse(text).value)) &&
            Keys(Parse(text).value.peers) == {ToHex(key)} &&
            NewAddress(Parse(text).value) == AddressOf(254)
  {
    hide Encode, ToHex, Parse, WF, FullText, AddressOf, WholePool, OctetsApart, Sound, Keys, DisjointAddresses,
         PoolOpen, UsedBy, NewAddress, NewNet, Listed, NextOctet, PlainValue;
    var cfg := FullConfig(Encode(serverKey), Encode(key));
    KeyIsPlain(serverKey);
    KeyIsPlain(key);
    FullParses(Encode(serverKey), Encode(key));
    FullIsSound(serverKey, key);
    PoolRunsOut(cfg.iface, Encode(key), "");
    NewOctetApart(cfg, "");
    LastIsListed(cfg);
  }

  lemma LastIsListed(cfg: Config)
    requires DisjointAddresses(cfg.peers) && !DisjointAddresses(ConfigPlus(cfg, "").peers)
    ensures Listed(cfg.peers, NewNet(cfg))
  {
    hide ReadPrefix, NewAddress, NewNet, Listed, Nets, DisjointAddresses;
    var cidr := NewAddress(cfg) + "/32";
    NewAddressReads(cfg);
    NetsOfOne(cidr);
    AddressIsFresh(cfg.peers, NewPeer("", cidr), NewNet(cfg));
  }

  /** On a running device an `Add` without failures puts the peer on the device and at the end of the file. */
  lemma PlainAdd(content: string, dev: Uapi.Device, name: string, key: seq<byte>)
    requires Parse(content).Ok? && |Parse(content).value.peers| < MAX_PEERS && LegalName(name)
    requires |key| == KEY_LENGTH && ToHex(key) !in dev.peers
    requires B64ToHex(Parse(content).value.iface.privateKey).Some?
    ensures var cfg := Parse(content).value;
            AddStep(Store(content, Running(dev)), name, key, NO_FAULTS) ==
            (Store(Appended(content, name, Encode(key), NewAddress(cfg)),
                   Running(Plus(dev, ToHex(key), NewNet(cfg)))),
             Ok(PeerInfo(|cfg.peers| + 1, name, Encode(key), NewAddress(cfg))))
  {
    hide Parse, LegalName, Encode, ToHex, B64ToHex, NewAddress, NewNet, Appended, LiveAdd, ReadPrefix, HasBreak, Plus,
         TunnelRemove, PlainValue, LastOctet;
    NewAddressReads(Parse(content).value);
    LivePlus(dev, key, NewAddress(Parse(content).value) + "/32");
  }

  lemma FullPoolStarts(serverKey: seq<byte>, key: seq<byte>)
    requires |serverKey| == KEY_LENGTH && |key| == KEY_LENGTH
    ensures var text, cfg := FullText(Encode(serverKey), Encode(key)), FullConfig(Encode(serverKey), Encode(key));
            Healthy(text) && ApartFile(text) && Parse(text) == Ok(cfg) && Bootable(cfg) && !OctetLeft(text) &&
            Listed(cfg.peers, NewNet(cfg)) &&
            NewAddress(cfg) == AddressOf(254) && B64ToHex(cfg.iface.privateKey).Some? &&
            Restart(text) == Some(DeviceFor(cfg)) && DeviceFor(cfg).peers.Keys == {ToHex(key)} &&
            RouteOf(DeviceFor(cfg), NewNet(cfg)) == Some(ToHex(key))
  {
    hide Encode, ToHex, B64ToHex, Parse, Healthy, FullText, FullConfig, AddressOf, NewAddress, Listed, NewNet,
         DeviceFor, Keys, ApartFile, OctetLeft, Restart, NextOctet, Described, Bootable;
    var text, cfg := FullText(Encode(serverKey), Encode(key)), FullConfig(Encode(serverKey), Encode(key));
    FullIsHealthy(serverKey, key);
    HealthyIsBootable(text);
    RestartMeaning(text);
    BootFacts(text);
    GeneratedKeyAccepted(serverKey);
    ServerKeyOf(serverKey, key);
    var owner := RouteOf(DeviceFor(cfg), NewNet(cfg)).value;
    assert owner in DeviceFor(cfg).peers;
  }

  lemma ServerKeyOf(serverKey: seq<byte>, key: seq<byte>)
    ensures FullConfig(Encode(serverKey), Encode(key)).iface.privateKey == Encode(serverKey)
    ensures |FullConfig(Encode(serverKey), Encode(key)).peers| == 1
  {
    hide Encode, WholePool;
  }

  /**
   * From that file, on the device a start brings up: an `Add` without any failure returns the address of octet 254,
   * which the first peer has; it takes it away from the first peer on the device, and the file lists it for both.
   */
  lemma FullPoolAdd(serverKey: seq<byte>, first: seq<byte>, second: seq<byte>, name: string)
    requires |serverKey| == |first| == |second| == KEY_LENGTH && first != second && LegalName(name)
    ensures var text := FullText(Encode(serverKey), Encode(first));
            Restart(text).Some? &&
            var dev, last := Restart(text).value, Net4(SUBNET + 254, 32);
            var (st, r) := AddStep(Store(text, Running(dev)), name, second, NO_FAULTS);
            r == Ok(PeerInfo(2, name, Encode(second), AddressOf(254))) &&
            RouteOf(dev, last) == Some(ToHex(first)) &&
            st.live.Running? && RouteOf(st.live.device, last) == Some(ToHex(second)) &&
            !ApartFile(st.conf) && !Healthy(st.conf)
  {
    hide Encode, ToHex, B64ToHex, Parse, Healthy, FullText, FullConfig, AddressOf, NewAddress, Listed, NewNet,
         DeviceFor, Keys, ApartFile, OctetLeft, Restart, NextOctet, LegalName, AddStep, Appended, Bootable;
    var text, cfg := FullText(Encode(serverKey), Encode(first)), FullConfig(Encode(serverKey), Encode(first));
    FullPoolStarts(serverKey, first);
    FullIsHealthy(serverKey, first);
    ServerKeyOf(serverKey, first);
    DistinctHex(first, second);
    SameOctet(cfg);
    PlainAdd(text, DeviceFor(cfg), name, second);
    HealthyAdd(text, name, second);
    AddApartExact(Store(text, Running(DeviceFor(cfg))), name, second, NO_FAULTS);
    NamesAreNotEmpty(text, name, Encode(second), NewAddress(cfg));
  }

  lemma DistinctHex(a: seq<byte>, b: seq<byte>)
    requires |a| == |b| == KEY_LENGTH && a != b
    ensures ToHex(a) != ToHex(b)
  {
    hide Encode, ToHex, B64ToHex;
    GeneratedKeyAccepted(a);
    GeneratedKeyAccepted(b);
    DistinctKeysStayDistinct(a, b);
  }

  /** The address tells the octet. */
  lemma SameOctet(cfg: Config)
    requires NewAddress(cfg) == AddressOf(254)
    ensures NewNet(cfg) == Net4(SUBNET + 254, 32)
  {
    hide LastOctet, ReadPrefix, NewAddress, AddressOf, NextOctet;
    NewAddressReads(cfg);
    OctetOfAddress(254);
  }

  lemma NamesAreNotEmpty(content: string, name: string, key: string, ip: string)
    ensures Appended(content, name, key, ip) != content
  {
    assert |Appended(content, name, key, ip)| == |content| + |PeerText(name, key, ip)|;
  }
}
