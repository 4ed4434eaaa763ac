/** What `Remove` does to file and device on texts that are not well-formed: it returns nil, and the two differ. */
module PeerLimits {
  import opened Wrappers
  import opened Text
  import opened Cutting
  import opened KeyCodec
  import opened WgConfig
  import opened Sections
  import opened ConfFile
  import opened ConfEdits
  import opened ConfAppend
  import opened ConfLimits
  import opened Prefixes
  import opened WgServer
  import opened LiveAgreement
  import opened Octets
  import opened Peers
  import opened PeerState
  import opened PeerRuns
  import Uapi

  const NO_FAULTS := Faults(false, false, false, false, false, false, false)

  /** The device can be told to drop this peer. */
  predicate Revocable(p: PeerConfig) {
    !HasBreak(p.publicKey) && B64ToHex(p.publicKey).Some?
  }

  /** On a running device a removal without failures revokes the numbered peer and cuts out the numbered section. */
  lemma PlainRemove(content: string, dev: Uapi.Device, index: int)
    requires Parse(content).Ok? && 1 <= index <= |Parse(content).value.peers|
    requires Revocable(Parse(content).value.peers[index - 1])
    ensures var live := Running(Uapi.DropPeer(dev, HexOf(Parse(content).value.peers[index - 1])));
            RemoveStep(Store(content, Running(dev)), index, NO_FAULTS) ==
            match WithoutBlock(content, index - 1)
            case None => (Store(content, live), Err(RewriteFailed))
            case Some(text) => (Store(text, live), Ok(()))
  {
    hide Parse, WithoutBlock, HasBreak, B64ToHex, LiveRemove;
    LiveRemoveMeaning(dev, Parse(content).value.peers[index - 1].publicKey);
  }

  // ---- a header on the first line ----

  /**
   * A file with a header on its first line and its interface in the same section: `Remove` of any peer but the last
   * returns nil, revokes that peer and takes its successor out of the file; of the last one it fails after revoking.
   */
  lemma LeadingHeaderRemove(content: string, dev: Uapi.Device, index: int)
    requires IsPeerMark(Split(content, '\n')[0])
    requires ReadersAgree(Split(content, '\n')) && InterfaceInHead(BlocksOf(content))
    requires Parse(content).Ok? && 1 <= index <= |Parse(content).value.peers|
    requires Revocable(Parse(content).value.peers[index - 1])
    ensures var cfg := Parse(content).value;
            var (st, r) := RemoveStep(Store(content, Running(dev)), index, NO_FAULTS);
            st.live == Running(Uapi.DropPeer(dev, HexOf(cfg.peers[index - 1]))) &&
            if index < |cfg.peers| then
              r == Ok(()) && Parse(st.conf) == Ok(Config(cfg.iface, DropAt(cfg.peers, index)))
            else
              r == Err(RewriteFailed) && st.conf == content
  {
    hide IsPeerMark, ReadersAgree, InterfaceInHead, Parse, WithoutBlock, Revocable, HexOf, RemoveStep, Split,
         BlocksOf;
    LeadingHeaderShifts(content, index - 1);
    PlainRemove(content, dev, index);
  }

  /** Two peers, the first one in front of the interface. */
  function LeadingText(serverKey: string, first: string, second: string): string {
    Appended(LateInterface(PeerOnly(first), serverKey), "b", second, AddressOf(3))
  }

  /** An interface section with a key and an address at the end of a text. */
  function LateInterface(content: string, serverKey: string): string {
    LateKey(content, serverKey) + "\n" + Setting("Address", SERVER_ADDRESS)
  }

  function PeerOnly(key: string): string {
    Unlines([HeaderText("a"), Setting("PublicKey", key), Setting("AllowedIPs", AddressOf(2) + "/32")])
  }

  function LeadingConfig(serverKey: string, first: string, second: string): Config {
    Config(EMPTY_INTERFACE.(privateKey := serverKey, address := SERVER_ADDRESS),
           [NewPeer(first, AddressOf(2) + "/32"), NewPeer(second, AddressOf(3) + "/32")])
  }

  lemma LettersArePlain()
    ensures PlainValue("a") && PlainValue("b")
  {
  }

  lemma PeerOnlyLines(key: string)
    requires PlainValue(key)
    ensures Split(PeerOnly(key), '\n') == PeerLines("a", key, AddressOf(2) + "/32")
  {
    hide PlainValue, Split, AddressOf, Unlines;
    LettersArePlain();
    AddressIsPlain(2);
    PlainIsClean(key);
    PlainIsClean(AddressOf(2));
    var lines := [HeaderText("a"), Setting("PublicKey", key), Setting("AllowedIPs", AddressOf(2) + "/32")];
    assert NoNewlines(lines);
    SplitUnlines(lines);
    assert lines + [""] == PeerLines("a", key, AddressOf(2) + "/32");
  }

  lemma AddressLine(st: ParserState)
    requires st.section == InInterface
    ensures Step(st, Setting("Address", SERVER_ADDRESS)) == Ok(st.(iface := st.iface.(address := SERVER_ADDRESS)))
    ensures PlainLine(Setting("Address", SERVER_ADDRESS)) && '\n' !in Setting("Address", SERVER_ADDRESS)
  {
    hide IsPeerMark, IsHeader, Step, Setting;
    AddressWords();
    SettingLine(st, "Address", SERVER_ADDRESS);
    SettingIsClean("Address", SERVER_ADDRESS);
  }

  lemma AddressWords()
    ensures PlainValue("Address") && PlainValue(SERVER_ADDRESS) && '=' !in "Address" && ToLower("Address") == "address"
    ensures '\n' !in "Address" && '\n' !in SERVER_ADDRESS
  {
  }

  lemma LateInterfaceLines(content: string, serverKey: string)
    requires PlainValue(serverKey)
    ensures Split(LateInterface(content, serverKey), '\n') ==
            Split(content, '\n')
            + ["[Interface]", Setting("PrivateKey", serverKey), Setting("Address", SERVER_ADDRESS)]
  {
    hide Split, Tailed, Setting, PlainValue, PlainLine, Step;
    var first, second := Setting("PrivateKey", serverKey), Setting("Address", SERVER_ADDRESS);
    PlainIsClean(serverKey);
    SettingIsClean("PrivateKey", serverKey);
    AddressLine(START.(section := InInterface));
    TailedLines(content, "[Interface]", first);
    LineMore(LateKey(content, serverKey), second);
    assert Split(content, '\n') + ["[Interface]", first] + [second] ==
           Split(content, '\n') + ["[Interface]", first, second];
  }

  lemma LateInterfaceParses(content: string, serverKey: string)
    requires PlainValue(serverKey) && Parse(content).Ok?
    ensures var cfg := Parse(content).value;
            Parse(LateInterface(content, serverKey)) ==
            Ok(Config(cfg.iface.(privateKey := serverKey, address := SERVER_ADDRESS), cfg.peers))
  {
    hide Split, Setting, PlainValue, PlainLine, Step, Run, Parse, LateInterface, IsPeerMark;
    var lines := Split(content, '\n');
    var first, second := Setting("PrivateKey", serverKey), Setting("Address", SERVER_ADDRESS);
    LateInterfaceLines(content, serverKey);
    ParseSplit(content);
    ParseSplit(LateInterface(content, serverKey));
    RunConcat(START, lines, ["[Interface]", first, second]);
    var st := Run(START, lines).value;
    LateKeyRun(st, serverKey);
    assert ["[Interface]", first] + [second] == ["[Interface]", first, second];
    RunConcat(st, ["[Interface]", first], [second]);
    var mid := Run(st, ["[Interface]", first]).value;
    AddressLine(mid);
    RunOne(mid, second);
  }

  lemma LeadingParses(serverKey: string, first: string, second: string)
    requires PlainValue(serverKey) && PlainValue(first) && PlainValue(second)
    ensures Parse(LeadingText(serverKey, first, second)) == Ok(LeadingConfig(serverKey, first, second))
  {
    hide PlainValue, AddressOf, Parse, PeerOnly, LateInterface, Appended, PeerLines, IsPeerBlock, BlockRun, BlockPeer,
         Step;
    LettersArePlain();
    AddressIsPlain(2);
    AddressIsPlain(3);
    CidrIsPlain(AddressOf(2));
    PeerOnlyLines(first);
    NewBlock("a", first, AddressOf(2) + "/32");
    ParseSplit(PeerOnly(first));
    RunBlock(START, PeerLines("a", first, AddressOf(2) + "/32"));
    assert Parse(PeerOnly(first)) == Ok(Config(EMPTY_INTERFACE, [NewPeer(first, AddressOf(2) + "/32")])) by {
      assert START.Peers() + [NewPeer(first, AddressOf(2) + "/32")] == [NewPeer(first, AddressOf(2) + "/32")];
    }
    LateInterfaceParses(PeerOnly(first), serverKey);
    AppendParses(LateInterface(PeerOnly(first), serverKey), "b", second, AddressOf(3));
    var p, q := NewPeer(first, AddressOf(2) + "/32"), NewPeer(second, AddressOf(3) + "/32");
    assert [p] + [q] == [p, q];
  }

  /** The first section: a peer and then the interface. */
  function LeadingSection(serverKey: string, first: string): seq<string> {
    PeerLines("a", first, AddressOf(2) + "/32") + InterfaceLines(serverKey)
  }

  function InterfaceLines(serverKey: string): seq<string> {
    ["[Interface]", Setting("PrivateKey", serverKey), Setting("Address", SERVER_ADDRESS)]
  }

  lemma InterfaceLinesUnmarked(serverKey: string)
    requires PlainValue(serverKey)
    ensures forall i :: 0 <= i < 3 ==>
              !IsPeerMark(InterfaceLines(serverKey)[i]) && !IsPeerHeader(InterfaceLines(serverKey)[i])
  {
    hide IsPeerMark, StripLine, HeaderName, Setting, PlainValue, Step;
    InterfaceHeaderLine();
    PrivateKeyIsPlain();
    SettingLine(START, "PrivateKey", serverKey);
    AddressLine(START.(section := InInterface));
  }

  lemma LeadingBlocks(serverKey: string, first: string, second: string)
    requires PlainValue(serverKey) && PlainValue(first) && PlainValue(second)
    ensures BlocksOf(LeadingText(serverKey, first, second)) ==
            [LeadingSection(serverKey, first), PeerLines("b", second, AddressOf(3) + "/32")]
    ensures PeerBlocks([PeerLines("b", second, AddressOf(3) + "/32")])
  {
    hide PlainValue, AddressOf, PeerOnly, LateInterface, PeerText, IsPeerBlock, BlockRun, BlockPeer, Split, IsPeerMark,
         IsHeader, Setting;
    LettersArePlain();
    AddressIsPlain(2);
    AddressIsPlain(3);
    CidrIsPlain(AddressOf(2));
    CidrIsPlain(AddressOf(3));
    var block, added := PeerLines("a", first, AddressOf(2) + "/32"), InterfaceLines(serverKey);
    PeerOnlyLines(first);
    NewBlock("a", first, AddressOf(2) + "/32");
    NewBlockCut("a", first, AddressOf(2) + "/32");
    NewBlock("b", second, AddressOf(3) + "/32");
    NewBlockCut("b", second, AddressOf(3) + "/32");
    InterfaceLinesUnmarked(serverKey);
    LateInterfaceLines(PeerOnly(first), serverKey);
    assert added[0] == "[Interface]";
    CutSnoc(IsPeerMark, block, added[0]);
    CutSnoc(IsPeerMark, block + [added[0]], added[1]);
    CutSnoc(IsPeerMark, block + [added[0]] + [added[1]], added[2]);
    assert block + [added[0]] + [added[1]] + [added[2]] == block + added;
    SplitAppended(LateInterface(PeerOnly(first), serverKey), "b", second, AddressOf(3));
    CutConcat(IsPeerMark, block + added, PeerLines("b", second, AddressOf(3) + "/32"));
  }

  lemma LeadingHead(serverKey: string, first: string)
    requires PlainValue(serverKey) && PlainValue(first)
    ensures CountPeerHeaders(LeadingSection(serverKey, first)) == 1
  {
    hide PlainValue, AddressOf, PeerLines, BlockRun, BlockPeer, IsPeerMark, Setting, IsHeader, InterfaceLines;
    AddressIsPlain(2);
    CidrIsPlain(AddressOf(2));
    LettersArePlain();
    var block := PeerLines("a", first, AddressOf(2) + "/32");
    NewBlock("a", first, AddressOf(2) + "/32");
    PeerBlockCount(block);
    ThreeLines(serverKey);
    InterfaceLinesUnmarked(serverKey);
    NoHeaders(InterfaceLines(serverKey));
    CountConcat(block, InterfaceLines(serverKey));
  }

  lemma ThreeLines(serverKey: string)
    ensures |InterfaceLines(serverKey)| == 3
  {
  }

  lemma PeerBlockCount(block: seq<string>)
    requires IsPeerBlock(block)
    ensures CountPeerHeaders(block) == 1
  {
    hide IsHeader, IsPeerMark;
    NoHeaders(block[1..]);
  }

  lemma LeadingPeer(key: seq<byte>, n: nat)
    requires |key| == KEY_LENGTH && n <= 255
    ensures var p := NewPeer(Encode(key), AddressOf(n) + "/32");
            Usable(p) && Unbroken(p) && HexOf(p) == ToHex(key) && Revocable(p) && '\n' !in p.allowedIPs[0]
  {
    hide Encode, ToHex, B64ToHex, HasBreak, AddressOf, ReadPrefix, LastOctet, PlainValue, IsEndpoint;
    KeyIsPlain(key);
    GeneratedKeyAccepted(key);
    OctetOfAddress(n);
    EmptyIsUnbroken();
    CidrIsClean(n);
  }

  lemma BootOfTwo(iface: InterfaceConfig, p: PeerConfig, q: PeerConfig)
    requires !HasBreak(iface.privateKey) && !HasBreak(iface.address) && iface.address != ""
    requires B64ToHex(iface.privateKey).Some?
    requires Usable(p) && Unbroken(p) && Usable(q) && Unbroken(q) && HexOf(p) != HexOf(q)
    requires CleanAddresses([p, q]) && iface.listenPort <= Uapi.MAX_UINT16
    ensures var cfg := Config(iface, [p, q]);
            Boot(cfg).Some? && Boot(cfg).value.peers.Keys == {HexOf(p), HexOf(q)}
  {
    hide B64ToHex, HasBreak, ConfigureAll, Nets, Boot, Usable, Unbroken, HexOf, CleanAddresses, Owner, PeerSettings;
    var cfg := Config(iface, [p, q]);
    UsableDecodes(p);
    UsableDecodes(q);
    BootMeaning(cfg);
    ConfiguredDevice(BareDevice(iface), [p, q]);
    TwoKeys(p, q);
  }

  lemma UsableDecodes(p: PeerConfig)
    requires Usable(p)
    ensures KeysDecode(p)
  {
  }

  lemma LeadingKeys(serverKey: seq<byte>, first: seq<byte>, second: seq<byte>)
    requires |serverKey| == |first| == |second| == KEY_LENGTH && first != second
    ensures var cfg := LeadingConfig(Encode(serverKey), Encode(first), Encode(second));
            Boot(cfg).Some? && Boot(cfg).value.peers.Keys == {ToHex(first), ToHex(second)} &&
            ToHex(first) != ToHex(second) &&
            HexOf(cfg.peers[0]) == ToHex(first) && HexOf(cfg.peers[1]) == ToHex(second) &&
            Revocable(cfg.peers[0])
  {
    hide Encode, ToHex, B64ToHex, HasBreak, AddressOf, Usable, Unbroken, HexOf, Revocable, PlainValue, Boot;
    var cfg := LeadingConfig(Encode(serverKey), Encode(first), Encode(second));
    KeyIsPlain(serverKey);
    GeneratedKeyAccepted(serverKey);
    GeneratedKeyAccepted(first);
    GeneratedKeyAccepted(second);
    DistinctKeysStayDistinct(first, second);
    LeadingPeer(first, 2);
    LeadingPeer(second, 3);
    AddressUnbroken();
    BootOfTwo(cfg.iface, cfg.peers[0], cfg.peers[1]);
  }

  lemma CidrIsClean(n: nat)
    ensures '\n' !in AddressOf(n) + "/32"
  {
    hide AddressOf;
    AddressIsPlain(n);
  }

  lemma AddressUnbroken()
    ensures !HasBreak(SERVER_ADDRESS)
  {
  }

  lemma EmptyIsUnbroken()
    ensures !HasBreak("")
  {
  }

  lemma TwoKeys(p: PeerConfig, q: PeerConfig)
    ensures Keys([p, q]) == {HexOf(p), HexOf(q)}
  {
    hide HexOf;
    assert [p, q] == [p] + [q];
    KeysConcat([p], [q]);
    KeysOfOne(p);
    KeysOfOne(q);
  }

  /**
   * A file a relay starts from: for any three keys, `Remove(1)` returns nil, the file keeps exactly the peer that was
   * to go, and the device exactly the other one.
   */
  lemma LeadingHeaderInstance(serverKey: seq<byte>, first: seq<byte>, second: seq<byte>)
    requires |serverKey| == |first| == |second| == KEY_LENGTH && first != second
    ensures var text := LeadingText(Encode(serverKey), Encode(first), Encode(second));
            Restart(text).Some? &&
            var (st, r) := RemoveStep(Store(text, Running(Restart(text).value)), 1, NO_FAULTS);
            r == Ok(()) && Parse(st.conf).Ok? && Keys(Parse(st.conf).value.peers) == {ToHex(first)} &&
            st.live.Running? && st.live.device.peers.Keys == {ToHex(second)}
  {
    hide Encode, ToHex, B64ToHex, AddressOf, Parse, Boot, HexOf, Revocable, LeadingText, WithoutBlock, BlocksOf, Keys,
         CountPeerHeaders, RemoveStep, PlainValue, PeerLines, LeadingSection, PeerBlocks;
    var text := LeadingText(Encode(serverKey), Encode(first), Encode(second));
    var cfg := LeadingConfig(Encode(serverKey), Encode(first), Encode(second));
    KeyIsPlain(serverKey);
    KeyIsPlain(first);
    KeyIsPlain(second);
    LeadingParses(Encode(serverKey), Encode(first), Encode(second));
    LeadingBlocks(Encode(serverKey), Encode(first), Encode(second));
    LeadingHead(Encode(serverKey), Encode(first));
    LeadingKeys(serverKey, first, second);
    assert BlocksOf(text)[1..] == [PeerLines("b", Encode(second), AddressOf(3) + "/32")];
    HeadShifts(text, 0);
    PlainRemove(text, Boot(cfg).value, 1);
    assert DropAt(cfg.peers, 1) == [cfg.peers[0]];
    KeysOfOne(cfg.peers[0]);
  }

  // ---- headers only one reader sees ----

  /**
   * A peer under `[ Peer ]` behind n ordinary ones: `Remove(n)` returns nil and takes both out of the file, and only
   * peer n off the device; `Remove(n + 1)` fails after revoking.
   */
  lemma SpacedHeaderRemove(content: string, key: string, dev: Uapi.Device)
    requires WF(content) && Parse(content).Ok? && 0 < |Parse(content).value.peers| < MAX_WG_PEERS && PlainValue(key)
    requires var peers := Parse(content).value.peers; Revocable(peers[|peers| - 1])
    requires Revocable(EMPTY_PEER.(publicKey := key))
    ensures var cfg, text := Parse(content).value, SpacedPeer(content, key);
            var n := |cfg.peers|;
            var spaced := EMPTY_PEER.(publicKey := key);
            var (st, r) := RemoveStep(Store(text, Running(dev)), n, NO_FAULTS);
            Parse(text) == Ok(Config(cfg.iface, cfg.peers + [spaced])) &&
            r == Ok(()) && Parse(st.conf) == Ok(Config(cfg.iface, DropAt(cfg.peers, n - 1))) &&
            st.live == Running(Uapi.DropPeer(dev, HexOf(cfg.peers[n - 1]))) &&
            RemoveStep(Store(text, Running(dev)), n + 1, NO_FAULTS) ==
            (Store(text, Running(Uapi.DropPeer(dev, HexOf(spaced)))), Err(RewriteFailed))
  {
    hide WF, Parse, PlainValue, Revocable, HexOf, RemoveStep, WithoutBlock, SpacedPeer;
    var cfg, text := Parse(content).value, SpacedPeer(content, key);
    SpacedHeaderVanishes(content, key);
    assert Parse(text).value.peers[|cfg.peers| - 1] == cfg.peers[|cfg.peers| - 1];
    PlainRemove(text, dev, |cfg.peers|);
    PlainRemove(text, dev, |cfg.peers| + 1);
  }

  /** A line `[Peer] phone` in front of a peer: `Remove` of that peer returns nil and revokes it; the file keeps it. */
  lemma LabelledHeaderRemove(content: string, tag: string, name: string, key: string, ip: string, dev: Uapi.Device)
    requires WF(content) && Parse(content).Ok? && |Parse(content).value.peers| < MAX_WG_PEERS
    requires LegalName(tag) && PlainValue(name) && PlainValue(key) && PlainValue(ip)
    requires Revocable(NewPeer(key, ip + "/32"))
    ensures var cfg, text := Parse(content).value, LabelledThenPeer(content, tag, name, key, ip);
            var p := NewPeer(key, ip + "/32");
            var (st, r) := RemoveStep(Store(text, Running(dev)), |cfg.peers| + 1, NO_FAULTS);
            Parse(text) == Ok(Config(cfg.iface, cfg.peers + [p])) &&
            r == Ok(()) && Parse(st.conf) == Parse(text) && st.live == Running(Uapi.DropPeer(dev, HexOf(p)))
  {
    hide WF, Parse, PlainValue, LegalName, Revocable, HexOf, RemoveStep, WithoutBlock, LabelledThenPeer;
    LabelledPeerStays(content, tag, name, key, ip);
    PlainRemove(LabelledThenPeer(content, tag, name, key, ip), dev, |Parse(content).value.peers| + 1);
  }

  // ---- an interface behind the peers ----

  lemma LateInterfaceBlocks(content: string, serverKey: string)
    requires PlainValue(serverKey)
    ensures |BlocksOf(LateInterface(content, serverKey))| == |BlocksOf(content)|
    ensures |BlocksOf(content)| > 1 ==>
              WithoutBlock(LateInterface(content, serverKey), |BlocksOf(content)| - 2) ==
              WithoutBlock(content, |BlocksOf(content)| - 2)
  {
    hide PlainValue, Setting, WithoutBlock, BlocksOf, IsPeerMark, Tailed, IsHeader, Step, StripLine, HeaderName;
    InterfaceHeaderLine();
    PlainIsClean(serverKey);
    SettingIsClean("PrivateKey", serverKey);
    LateKeyRun(START, serverKey);
    AddressLine(START.(section := InInterface));
    TailedBlocks(content, "[Interface]", Setting("PrivateKey", serverKey));
    LineMoreBlocks(LateKey(content, serverKey), Setting("Address", SERVER_ADDRESS));
  }

  /**
   * The interface behind n peers: `Remove(n)` returns nil, and with the peer goes the interface. If the text had none
   * before, no relay starts from the file any more.
   */
  lemma LateInterfaceRemove(content: string, serverKey: string, dev: Uapi.Device)
    requires WF(content) && Parse(content).Ok? && Parse(content).value.peers != [] && PlainValue(serverKey)
    requires var peers := Parse(content).value.peers; Revocable(peers[|peers| - 1])
    ensures var cfg, text := Parse(content).value, LateInterface(content, serverKey);
            var n := |cfg.peers|;
            var (st, r) := RemoveStep(Store(text, Running(dev)), n, NO_FAULTS);
            Parse(text) ==
            Ok(Config(cfg.iface.(privateKey := serverKey, address := SERVER_ADDRESS), cfg.peers)) &&
            r == Ok(()) && st.live == Running(Uapi.DropPeer(dev, HexOf(cfg.peers[n - 1]))) &&
            Parse(st.conf) == Ok(Config(cfg.iface, DropAt(cfg.peers, n - 1))) &&
            (cfg.iface.privateKey == "" || cfg.iface.address == "" ==> Restart(st.conf) == None)
  {
    hide WF, Parse, PlainValue, Revocable, HexOf, RemoveStep, WithoutBlock, LateInterface, BlocksOf, Names, Row, NameOf,
         IsPeerBlock, BlockPeer;
    var cfg, text := Parse(content).value, LateInterface(content, serverKey);
    LateInterfaceParses(content, serverKey);
    LateInterfaceBlocks(content, serverKey);
    ReadersPair(content);
    RemovalCommutes(content, |cfg.peers| - 1);
    PlainRemove(text, dev, |cfg.peers|);
  }

  /** One peer and then the interface. */
  function LateText(serverKey: string, key: string): string {
    LateInterface(Appended("", "a", key, AddressOf(2)), serverKey)
  }

  lemma NothingParses()
    ensures WF("") && Parse("") == Ok(Config(EMPTY_INTERFACE, []))
  {
    BlankLine(START);
    assert Split("", '\n') == [""];
  }

  lemma LateTextParses(serverKey: string, key: string)
    requires PlainValue(serverKey) && PlainValue(key)
    ensures var base := Appended("", "a", key, AddressOf(2));
            WF(base) && Parse(base) == Ok(Config(EMPTY_INTERFACE, [NewPeer(key, AddressOf(2) + "/32")]))
  {
    hide PlainValue, AddressOf, Parse, WF, Appended, BlocksOf, PeerLines;
    LettersArePlain();
    AddressIsPlain(2);
    NothingParses();
    AppendBlocks("", "a", key, AddressOf(2));
    AppendParses("", "a", key, AddressOf(2));
    assert [] + [NewPeer(key, AddressOf(2) + "/32")] == [NewPeer(key, AddressOf(2) + "/32")];
  }

  lemma BootOfOne(iface: InterfaceConfig, p: PeerConfig)
    requires !HasBreak(iface.privateKey) && !HasBreak(iface.address) && iface.address != ""
    requires B64ToHex(iface.privateKey).Some? && iface.listenPort <= Uapi.MAX_UINT16
    requires Usable(p) && Unbroken(p) && CleanAddresses([p])
    ensures Boot(Config(iface, [p])).Some?
  {
    hide B64ToHex, HasBreak, ConfigureAll, Boot, Usable, Unbroken, CleanAddresses;
    UsableDecodes(p);
    BootMeaning(Config(iface, [p]));
  }

  /** For any two keys: a file a relay starts from, and after `Remove(1)` has returned nil it does not start again. */
  lemma LateInterfaceInstance(serverKey: seq<byte>, key: seq<byte>)
    requires |serverKey| == |key| == KEY_LENGTH
    ensures var text := LateText(Encode(serverKey), Encode(key));
            Restart(text).Some? &&
            var (st, r) := RemoveStep(Store(text, Running(Restart(text).value)), 1, NO_FAULTS);
            r == Ok(()) && Restart(st.conf) == None
  {
    hide Encode, ToHex, B64ToHex, AddressOf, Parse, Boot, HexOf, Revocable, RemoveStep, PlainValue, WF, Appended,
         LateInterface, HasBreak, Usable, Unbroken;
    var base, p := Appended("", "a", Encode(key), AddressOf(2)), NewPeer(Encode(key), AddressOf(2) + "/32");
    var iface := EMPTY_INTERFACE.(privateKey := Encode(serverKey), address := SERVER_ADDRESS);
    KeyIsPlain(serverKey);
    KeyIsPlain(key);
    GeneratedKeyAccepted(serverKey);
    LeadingPeer(key, 2);
    AddressUnbroken();
    LateTextParses(Encode(serverKey), Encode(key));
    LateInterfaceParses(base, Encode(serverKey));
    BootOfOne(iface, p);
    LateInterfaceRemove(base, Encode(serverKey), Boot(Config(iface, [p])).value);
  }
}
