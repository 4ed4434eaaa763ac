/** The file the installer writes, and what the run theorems say from there on, for all keys. */
module Install {
  import opened Wrappers
  import opened Text
  import opened Cutting
  import opened KeyCodec
  import opened WgConfig
  import opened Sections
  import opened ConfFile
  import opened ConfEdits
  import opened ConfAppend
  import opened Prefixes
  import opened WgServer
  import opened LiveAgreement
  import opened Octets
  import opened Peers
  import opened PeerState
  import opened PeerRuns
  import opened PeerTheorems
  import ConfLimits
  import PeerLimits
  import Decimal

  const FIRST_ADDRESS := AddressOf(2) + "/32"

  function Preamble(serverKey: string): seq<string> {
    ["[Interface]", Setting("PrivateKey", serverKey), Setting("Address", SERVER_ADDRESS),
     Setting("ListenPort", "51820"), ""]
  }

  function FirstBlock(peerKey: string): seq<string> {
    ["[Peer]", "# device-1", Setting("PublicKey", peerKey), Setting("AllowedIPs", FIRST_ADDRESS)]
  }

  /** `wg0.conf` as installed: the server and one peer, whose name stands on a line of its own. */
  function InstalledText(serverKey: string, peerKey: string): string {
    Unlines(Preamble(serverKey) + FirstBlock(peerKey))
  }

  function InstalledConfig(serverKey: string, peerKey: string): Config {
    Config(InterfaceConfig(serverKey, SERVER_ADDRESS, 51820), [NewPeer(peerKey, FIRST_ADDRESS)])
  }

  /** The file line by line. */
  lemma InstalledLines(serverKey: string, peerKey: string)
    ensures Preamble(serverKey) + FirstBlock(peerKey) ==
            ["[Interface]", "PrivateKey = " + serverKey, "Address = 10.100.0.1/24", "ListenPort = 51820", "",
             "[Peer]", "# device-1", "PublicKey = " + peerKey, "AllowedIPs = 10.100.0.2/32"]
  {
    assert Setting("PrivateKey", serverKey) == "PrivateKey = " + serverKey;
    assert Setting("PublicKey", peerKey) == "PublicKey = " + peerKey;
    assert Setting("Address", SERVER_ADDRESS) == "Address = 10.100.0.1/24";
    assert Setting("ListenPort", "51820") == "ListenPort = 51820";
    assert Setting("AllowedIPs", FIRST_ADDRESS) == "AllowedIPs = 10.100.0.2/32" by {
      assert FIRST_ADDRESS == "10.100.0.2/32";
    }
  }

  // ---- its lines ----

  lemma BarePeerHeader()
    ensures IsPeerMark("[Peer]") && IsPeerHeader("[Peer]")
  {
    hide IndexOf;
    assert '#' !in "[Peer]";
    TrimSolid("[Peer]");
    assert "[Peer]"[1..5] == "Peer";
    TrimSolid("Peer");
    LowerPeer();
    assert ToLower("[Peer]")[..6] == "[peer]";
  }

  lemma CommentLine(st: ParserState)
    ensures PlainLine("# device-1") && Step(st, "# device-1") == Ok(st)
  {
    hide IndexOf, IsPeerMark;
    var line := "# device-1";
    assert line == "" + ['#'] + " device-1";
    IndexOfAt("", '#', " device-1");
    assert line[..0] == "";
    assert StripLine(line) == "";
    HeaderNotMark(line);
  }

  lemma InterfaceWords()
    ensures PlainValue("Address") && PlainValue("ListenPort") && PlainValue("51820") && PlainValue(SERVER_ADDRESS)
    ensures '=' !in "Address" && '=' !in "ListenPort"
    ensures ToLower("Address") == "address" && ToLower("ListenPort") == "listenport"
  {
    PeerLimits.AddressWords();
  }

  lemma PortText()
    ensures Decimal.Atoi(TrimSpace("51820")) == Some(51820)
  {
    TrimSolid("51820");
    assert "51820"[..4] == "5182" && "5182"[..3] == "518" && "518"[..2] == "51" && "51"[..1] == "5" && "5"[..0] == "";
    assert Decimal.DigitsValue("5") == 5;
    assert Decimal.DigitsValue("51") == 51;
    assert Decimal.DigitsValue("518") == 518;
    assert Decimal.DigitsValue("5182") == 5182;
  }

  lemma FirstAddressIsPlain()
    ensures PlainValue(FIRST_ADDRESS) && '\n' !in FIRST_ADDRESS
  {
    hide AddressOf;
    AddressIsPlain(2);
    CidrIsPlain(AddressOf(2));
  }

  lemma PreambleRuns(serverKey: string)
    requires PlainValue(serverKey)
    ensures Run(START, Preamble(serverKey)) ==
            Ok(ParserState(InInterface, None, InterfaceConfig(serverKey, SERVER_ADDRESS, 51820), []))
  {
    hide Step, PlainValue, Setting, Decimal.Atoi, ToLower;
    var lines := Preamble(serverKey);
    var s1 := ParserState(InInterface, None, EMPTY_INTERFACE.(privateKey := serverKey), []);
    var s2 := s1.(iface := s1.iface.(address := SERVER_ADDRESS));
    var s3 := s2.(iface := s2.iface.(listenPort := 51820));
    ConfLimits.LateKeyRun(START, serverKey);
    InterfaceWords();
    PortText();
    SettingLine(s1, "Address", SERVER_ADDRESS);
    SettingLine(s2, "ListenPort", "51820");
    BlankLine(s3);
    assert lines == ["[Interface]", Setting("PrivateKey", serverKey)]
           + [Setting("Address", SERVER_ADDRESS), Setting("ListenPort", "51820"), ""];
    RunConcat(START, ["[Interface]", Setting("PrivateKey", serverKey)],
              [Setting("Address", SERVER_ADDRESS), Setting("ListenPort", "51820"), ""]);
    RunThree(s1, s2, s3, s3, [Setting("Address", SERVER_ADDRESS), Setting("ListenPort", "51820"), ""]);
  }

  predicate NoPeerLine(line: string) {
    !IsPeerMark(line) && !IsPeerHeader(line)
  }

  lemma PreambleLines(serverKey: string)
    requires PlainValue(serverKey)
    ensures IsPreamble(Preamble(serverKey))
  {
    hide PlainValue, Setting, IsPeerMark, IsHeader, Step;
    InterfaceWords();
    ConfLimits.PrivateKeyIsPlain();
    InterfaceLineIsNoPeer();
    SettingLine(START, "PrivateKey", serverKey);
    SettingLine(START, "Address", SERVER_ADDRESS);
    SettingLine(START, "ListenPort", "51820");
    BlankLine(START);
    FiveLines("[Interface]", Setting("PrivateKey", serverKey), Setting("Address", SERVER_ADDRESS),
              Setting("ListenPort", "51820"), "");
  }

  lemma FiveLines(a: string, b: string, c: string, d: string, e: string)
    requires NoPeerLine(a) && NoPeerLine(b) && NoPeerLine(c) && NoPeerLine(d) && NoPeerLine(e)
    ensures IsPreamble([a, b, c, d, e])
  {
    hide IsPeerMark, IsHeader;
  }

  lemma InterfaceLineIsNoPeer()
    ensures !IsPeerMark("[Interface]") && !IsPeerHeader("[Interface]")
  {
    hide IsPeerMark, StripLine, HeaderName;
    ConfLimits.InterfaceHeaderLine();
  }

  lemma FirstBlockRuns(peerKey: string)
    requires PlainValue(peerKey)
    ensures IsPeerBlock(FirstBlock(peerKey))
    ensures BlockRun(FirstBlock(peerKey)) == Ok(PEER_START.(pending := Some(NewPeer(peerKey, FIRST_ADDRESS))))
    ensures BlockPeer(FirstBlock(peerKey)) == NewPeer(peerKey, FIRST_ADDRESS)
  {
    hide Step, PlainValue, Setting, IsPeerMark, IsHeader, Assign, AddressOf;
    var block := FirstBlock(peerKey);
    var afterKey := PEER_START.(pending := Some(EMPTY_PEER.(publicKey := peerKey)));
    var done := PEER_START.(pending := Some(NewPeer(peerKey, FIRST_ADDRESS)));
    BarePeerHeader();
    KeywordsArePlain();
    FirstAddressIsPlain();
    CommentLine(PEER_START);
    SettingLine(PEER_START, "PublicKey", peerKey);
    AssignKey(peerKey);
    SettingLine(afterKey, "AllowedIPs", FIRST_ADDRESS);
    AssignCidr(peerKey, FIRST_ADDRESS);
    RunThree(PEER_START, PEER_START, afterKey, done, block[1..]);
    PeerOfRun(block, NewPeer(peerKey, FIRST_ADDRESS));
  }

  lemma InstalledParses(serverKey: string, peerKey: string)
    requires PlainValue(serverKey) && PlainValue(peerKey)
    ensures WF(InstalledText(serverKey, peerKey))
    ensures Parse(InstalledText(serverKey, peerKey)) == Ok(InstalledConfig(serverKey, peerKey))
  {
    hide PlainValue, Preamble, FirstBlock, WF, BlockRun, BlockPeer, Parse, IsPeerBlock, IsPreamble;
    var blocks := [Preamble(serverKey), FirstBlock(peerKey)];
    assert blocks[1..] == [FirstBlock(peerKey)];
    FlattenTwo(Preamble(serverKey), FirstBlock(peerKey));
    PreambleLines(serverKey);
    PreambleRuns(serverKey);
    FirstBlockRuns(peerKey);
    InstalledClean(serverKey, peerKey);
    ConcatTexts(blocks);
    JoinedBlocks(blocks);
    ParseBlocks(blocks);
    assert BlockPeersOf([FirstBlock(peerKey)]) == [NewPeer(peerKey, FIRST_ADDRESS)];
  }

  lemma InstalledClean(serverKey: string, peerKey: string)
    requires PlainValue(serverKey) && PlainValue(peerKey)
    ensures CleanBlocks([Preamble(serverKey), FirstBlock(peerKey)])
  {
    hide PlainValue, AddressOf;
    PlainIsClean(serverKey);
    PlainIsClean(peerKey);
    FirstAddressIsPlain();
  }

  // ---- it is healthy ----

  lemma ServerAddressUnbroken()
    ensures !HasBreak(SERVER_ADDRESS) && !HasBreak("")
  {
  }

  /** Whatever the two keys are, the installed file is healthy, with one peer at an octet of its own. */
  lemma InstalledIsHealthy(serverKey: seq<byte>, peerKey: seq<byte>)
    requires |serverKey| == KEY_LENGTH && |peerKey| == KEY_LENGTH
    ensures var text := InstalledText(Encode(serverKey), Encode(peerKey));
            Healthy(text) && ApartFile(text) && ShortLists(Parse(text).value.peers) &&
            Parse(text) == Ok(InstalledConfig(Encode(serverKey), Encode(peerKey))) &&
            Keys(Parse(text).value.peers) == {ToHex(peerKey)}
  {
    hide Encode, ToHex, B64ToHex, Parse, WF, HasBreak, InstalledText, AddressOf, LastOctet, ReadPrefix, Nets;
    var cfg := InstalledConfig(Encode(serverKey), Encode(peerKey));
    KeyIsPlain(serverKey);
    KeyIsPlain(peerKey);
    GeneratedKeyAccepted(serverKey);
    GeneratedKeyAccepted(peerKey);
    InstalledParses(Encode(serverKey), Encode(peerKey));
    ServerAddressUnbroken();
    KeysOfOne(cfg.peers[0]);
    OctetOfAddress(2);
    OctetsOfOne(FIRST_ADDRESS);
  }

  /** Its one peer is listed as `device-1`, by the default and not by the comment. */
  lemma InstalledListing(serverKey: string, peerKey: string)
    requires PlainValue(serverKey) && PlainValue(peerKey)
    ensures Listing(InstalledText(serverKey, peerKey)) == Ok([PeerInfo(1, "device-1", peerKey, AddressOf(2))])
  {
    hide PlainValue, Parse, WF, InstalledText, AddressOf, Split, Names, Row;
    InstalledParses(serverKey, peerKey);
    InstalledNames(serverKey, peerKey);
    FirstRow(peerKey);
    assert Rows([NewPeer(peerKey, FIRST_ADDRESS)], [""]) == [Row(0, NewPeer(peerKey, FIRST_ADDRESS), "")];
  }

  lemma FirstRow(peerKey: string)
    ensures Row(0, NewPeer(peerKey, FIRST_ADDRESS), "") == PeerInfo(1, "device-1", peerKey, AddressOf(2))
  {
    hide AddressOf;
    assert (AddressOf(2) + "/32")[..|AddressOf(2)|] == AddressOf(2) && HasSuffix(FIRST_ADDRESS, "/32");
    assert Decimal.FormatNat(1) == "1";
    assert "device-" + "1" == "device-1";
  }

  lemma InstalledNames(serverKey: string, peerKey: string)
    requires PlainValue(serverKey) && PlainValue(peerKey)
    ensures Names(Split(InstalledText(serverKey, peerKey), '\n')) == [""]
  {
    hide PlainValue, WF, Preamble, IsPeerMark, IsHeader, NameAt, Setting, AddressOf, BlockPeer, BlockRun;
    var blocks, text := [Preamble(serverKey), FirstBlock(peerKey)], InstalledText(serverKey, peerKey);
    PreambleLines(serverKey);
    FirstBlockRuns(peerKey);
    InstalledParses(serverKey, peerKey);
    InstalledClean(serverKey, peerKey);
    assert blocks[1..] == [FirstBlock(peerKey)];
    FlattenTwo(Preamble(serverKey), FirstBlock(peerKey));
    ConcatTexts(blocks);
    JoinedBlocks(blocks);
    NamesOfText(text);
    var last := FirstBlock(peerKey) + [""];
    assert ExtendLast(blocks, "")[1..] == [last] && [last][1..] == [];
    NoCommentNoName();
  }

  lemma NoCommentNoName()
    ensures NameAt("[Peer]") == [""]
  {
    hide IsPeerMark, IndexOf;
    BarePeerHeader();
    TrimSolid("[Peer]");
    assert "[Peer]"[6..] == "";
  }

  // ---- runs from an installation ----

  /** The generator gives every call a key of its own, and none that the installation already uses. */
  predicate DistinctKeys(ops: seq<Op>, first: seq<byte>) {
    && (forall i :: 0 <= i < |ops| && ops[i].AddOp? ==> |ops[i].key| == KEY_LENGTH && ops[i].key != first)
    && (forall i, j :: 0 <= i < j < |ops| && ops[i].AddOp? && ops[j].AddOp? ==> ops[i].key != ops[j].key)
  }

  /** All keys in the file and on the ledger are among these. */
  ghost predicate KeysWithin(st: Store, led: Ledger, used: set<string>)
    requires Parse(st.conf).Ok?
  {
    Keys(Parse(st.conf).value.peers) <= used && led.ghosts <= used
  }

  predicate Unused(ops: seq<Op>, used: set<string>) {
    && (forall i :: 0 <= i < |ops| && ops[i].AddOp? ==> |ops[i].key| == KEY_LENGTH && ToHex(ops[i].key) !in used)
    && (forall i, j :: 0 <= i < j < |ops| && ops[i].AddOp? && ops[j].AddOp? ==> ToHex(ops[i].key) != ToHex(ops[j].key))
  }

  lemma UnusedIsFresh(st: Store, led: Ledger, used: set<string>, key: seq<byte>)
    requires InStep(st, led) && KeysWithin(st, led, used) && |key| == KEY_LENGTH && ToHex(key) !in used
    ensures FreshKey(st, key)
  {
    hide WF, Parse, Sound, ToHex, Keys, AgreeOn, RoutesToPeers, DeviceFor;
  }

  ghost predicate ShortFile(content: string) {
    Parse(content).Ok? && ShortLists(Parse(content).value.peers)
  }

  lemma ShortFileHasRoom(st: Store)
    requires ShortFile(st.conf)
    ensures OctetLeft(st.conf) && FreshAddress(st)
  {
    hide Parse, ShortLists, PoolOpen, UsedBy, FreshAddress;
    if |Parse(st.conf).value.peers| < MAX_PEERS {
      ShortListsLeaveRoom(Parse(st.conf).value.peers);
    }
    OctetLeftIsFresh(st);
  }

  lemma AddUses(st: Store, led: Ledger, used: set<string>, name: string, key: seq<byte>, faults: Faults)
    requires InStep(st, led) && KeysWithin(st, led, used) && FreshKey(st, key) && ShortFile(st.conf)
    ensures var st' := AddStep(st, name, key, faults).0;
            ShortFile(st'.conf) && KeysWithin(st', AddLedger(st, led, name, key, faults), used + {ToHex(key)})
  {
    hide WF, Parse, Sound, ToHex, Keys, Tracks, LegalName, Encode, TunnelAdd, TunnelRemove, Appended,
         NewAddress, NewNet, B64ToHex, Listed;
    var cfg := Parse(st.conf).value;
    if LegalName(name) && |cfg.peers| < MAX_PEERS {
      HealthyAdd(st.conf, name, key);
      PlusKeys(cfg, key);
    }
  }

  lemma PlusKeys(cfg: Config, key: seq<byte>)
    requires |key| == KEY_LENGTH
    ensures Keys(ConfigPlus(cfg, Encode(key)).peers) == Keys(cfg.peers) + {ToHex(key)}
  {
    hide Encode, ToHex, Keys, B64ToHex, NewAddress;
    var p := NewPeer(Encode(key), NewAddress(cfg) + "/32");
    GeneratedKeyAccepted(key);
    KeysConcat(cfg.peers, [p]);
    KeysOfOne(p);
  }

  lemma RemoveUses(st: Store, led: Ledger, used: set<string>, index: int, faults: Faults)
    requires InStep(st, led) && KeysWithin(st, led, used) && ShortFile(st.conf)
    ensures var st' := RemoveStep(st, index, faults).0;
            ShortFile(st'.conf) && KeysWithin(st', RemoveLedger(st, led, index, faults), used)
  {
    hide WF, Parse, Keys, Tracks, TunnelRemove, WithoutBlock, TargetHex, Bootable, UniqueKeys,
         DisjointAddresses;
    var cfg := Parse(st.conf).value;
    if 1 <= index <= |cfg.peers| {
      HealthyDrop(st.conf, index - 1);
      KeysDrop(cfg.peers, index - 1);
    }
  }

  /** With short address lists, keys of their own are all that a run relies on. */
  lemma {:induction false} UnusedAreAdmissible(st: Store, led: Ledger, used: set<string>, ops: seq<Op>)
    requires InStep(st, led) && ShortFile(st.conf) && KeysWithin(st, led, used) && Unused(ops, used)
    ensures Admissible(st, ops) && OctetsLast(st, ops)
    decreases |ops|
  {
    hide InStep, KeysWithin, FreshKey, FreshAddress, Parse, AddStep, RemoveStep, AddLedger, RemoveLedger, ToHex,
         ShortLists, OctetLeft;
    if ops != [] {
      var op, rest := ops[0], ops[1..];
      match op {
        case AddOp(name, key, faults) =>
          UnusedIsFresh(st, led, used, key);
          ShortFileHasRoom(st);
          AddUses(st, led, used, name, key, faults);
          AddKeepsStep(st, led, name, key, faults);
          assert Unused(rest, used + {ToHex(key)});
          UnusedAreAdmissible(AddStep(st, name, key, faults).0, AddLedger(st, led, name, key, faults),
                              used + {ToHex(key)}, rest);
        case RemoveOp(index, faults) =>
          RemoveUses(st, led, used, index, faults);
          RemoveKeepsStep(st, led, index, faults);
          UnusedAreAdmissible(RemoveStep(st, index, faults).0, RemoveLedger(st, led, index, faults), used, rest);
      }
    }
  }

  lemma DistinctIsUnused(ops: seq<Op>, first: seq<byte>)
    requires DistinctKeys(ops, first) && |first| == KEY_LENGTH
    ensures Unused(ops, {ToHex(first)})
  {
    hide ToHex, FromHex;
    forall i | 0 <= i < |ops| && ops[i].AddOp? ensures ToHex(ops[i].key) != ToHex(first) {
      HexRoundTrip(ops[i].key);
      HexRoundTrip(first);
    }
    forall i, j | 0 <= i < j < |ops| && ops[i].AddOp? && ops[j].AddOp? ensures ToHex(ops[i].key) != ToHex(ops[j].key) {
      HexRoundTrip(ops[i].key);
      HexRoundTrip(ops[j].key);
    }
  }

  /**
   * From an installation with any two keys, over every sequence of additions and removals with keys of their own,
   * whatever steps fail: the device came up, the file stays healthy, file and device differ by the ledger only, no
   * address is shared; and if no rollback and no rewrite failed, a restart would bring up exactly the live device.
   */
  lemma InstalledRuns(serverKey: seq<byte>, peerKey: seq<byte>, ops: seq<Op>)
    requires |serverKey| == KEY_LENGTH && |peerKey| == KEY_LENGTH && DistinctKeys(ops, peerKey)
    ensures var text := InstalledText(Encode(serverKey), Encode(peerKey));
            Restart(text).Some? &&
            var start := Store(text, Running(Restart(text).value));
            var end := RunOps(start, ops);
            InStep(end, RunLedger(start, BALANCED, ops)) && ApartFile(end.conf) &&
            ((forall i :: 0 <= i < |ops| ==> DriftFree(ops[i])) ==>
               end.live.Running? && Restart(end.conf) == Some(end.live.device))
  {
    hide Encode, ToHex, InStep, Restart, InstalledText, Parse, ApartFile, RunOps, RunLedger, DriftFree, Healthy,
         DistinctKeys, Unused, Admissible, OctetsLast, ShortLists;
    var text := InstalledText(Encode(serverKey), Encode(peerKey));
    InstalledIsHealthy(serverKey, peerKey);
    RestartedIsBalanced(text);
    var start := Store(text, Running(Restart(text).value));
    DistinctIsUnused(ops, peerKey);
    UnusedAreAdmissible(start, BALANCED, {ToHex(peerKey)}, ops);
    RunsStayInStep(start, BALANCED, ops);
    AddressesStayApart(start, ops);
    if forall i :: 0 <= i < |ops| ==> DriftFree(ops[i]) {
      LiveRefinesRestart(text, ops);
    }
  }
}
