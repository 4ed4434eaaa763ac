/** `appendPeer` and `List`: the text of a new peer as the three readers see it. */
module ConfAppend {
  import opened Wrappers
  import opened Text
  import opened Cutting
  import opened WgConfig
  import opened Sections
  import opened ConfFile
  import opened ConfEdits
  import Decimal

  // ---- the lines of a new block ----

  /** A value the config grammar carries unchanged: no white space, comment mark or list separator. */
  predicate PlainValue(v: string) {
    v != "" && forall i :: 0 <= i < |v| ==> !IsSpace(v[i]) && v[i] != '#' && v[i] != ','
  }

  predicate IsNameChar(c: char) {
    'a' <= c <= 'z' || 'A' <= c <= 'Z' || '0' <= c <= '9' || c == '_' || c == '-'
  }

  /** `^[a-zA-Z0-9_-]{1,64}$` */
  predicate LegalName(name: string) {
    1 <= |name| <= 64 && forall i :: 0 <= i < |name| ==> IsNameChar(name[i])
  }

  const NAME_CHARS := "abcdefghijklmnopqrstuvwxyz" + "ABCDEFGHIJKLMNOPQRSTUVWXYZ" + "0123456789_-"

  lemma NameAlphabet()
    ensures NAME_CHARS == LOWER + UPPER + "0123456789_-"
  {
  }

  lemma NameChar(c: char)
    ensures IsNameChar(c) <==> c in NAME_CHARS
  {
    NameAlphabet();
    if 'a' <= c <= 'z' {
      Alphabet(c as int - 'a' as int);
      assert NAME_CHARS[c as int - 'a' as int] == c;
    } else if 'A' <= c <= 'Z' {
      Alphabet(c as int - 'A' as int);
      assert NAME_CHARS[26 + (c as int - 'A' as int)] == c;
    } else if IsNameChar(c) {
      OtherNameChar(c);
    } else if c in NAME_CHARS {
      var k :| 0 <= k < 64 && NAME_CHARS[k] == c;
      NameCharAt(k);
    }
  }

  lemma OtherNameChar(c: char)
    requires '0' <= c <= '9' || c == '_' || c == '-'
    ensures c in "0123456789_-"
  {
    var k := if c == '_' then 10 else if c == '-' then 11 else c as int - '0' as int;
    assert "0123456789_-"[k] == c;
  }

  lemma NameCharAt(k: nat)
    requires k < 64
    ensures IsNameChar(NAME_CHARS[k])
  {
    NameAlphabet();
    if k < 26 {
      Alphabet(k);
    } else if k < 52 {
      Alphabet(k - 26);
    } else {
      TailChar(k - 52);
    }
  }

  lemma TailChar(k: nat)
    requires k < 12
    ensures IsNameChar("0123456789_-"[k])
  {
  }

  /** The names a peer can be given: up to 64 characters, each of them one of 64. */
  lemma LegalNameMeaning(name: string)
    ensures LegalName(name) <==> 1 <= |name| <= 64 && forall c :: c in name ==> c in NAME_CHARS
    ensures |NAME_CHARS| == 64
  {
    hide IsNameChar;
    forall c | c in name ensures IsNameChar(c) <==> c in NAME_CHARS {
      NameChar(c);
    }
  }

  predicate Solid(s: string) {
    s != "" && !IsSpace(s[0]) && !IsSpace(s[|s| - 1])
  }

  lemma TrimSolid(s: string)
    requires Solid(s)
    ensures TrimSpace(s) == s && TrimSpace(s + " ") == s && TrimSpace(s + "  ") == s && TrimSpace(" " + s) == s
  {
    assert (s + " ")[..|s|] == s;
    assert (s + "  ")[..|s| + 1] == s + " ";
    assert (" " + s)[1..] == s;
  }

  function HeaderText(name: string): string {
    "[Peer]  # " + name
  }

  function Setting(key: string, value: string): string {
    key + " = " + value
  }

  function PeerLines(name: string, key: string, cidr: string): seq<string> {
    [HeaderText(name), Setting("PublicKey", key), Setting("AllowedIPs", cidr), ""]
  }

  /** The block `appendPeer` writes, with the newline that precedes it. */
  function PeerText(name: string, key: string, ip: string): string {
    "\n" + (HeaderText(name) + "\n" + (Setting("PublicKey", key) + "\n" + (Setting("AllowedIPs", ip + "/32") + "\n")))
  }

  predicate CleanValue(v: string) {
    '\n' !in v
  }

  lemma PlainIsClean(v: string)
    requires PlainValue(v)
    ensures CleanValue(v) && '#' !in v && ',' !in v && Solid(v)
  {
  }

  lemma SplitAppended(content: string, name: string, key: string, ip: string)
    requires PlainValue(name) && PlainValue(key) && PlainValue(ip)
    ensures Split(content + PeerText(name, key, ip), '\n') == Split(content, '\n') + PeerLines(name, key, ip + "/32")
  {
    hide PlainValue, Split, Unlines;
    PlainIsClean(name);
    PlainIsClean(key);
    PlainIsClean(ip);
    var l1, l2, l3 := HeaderText(name), Setting("PublicKey", key), Setting("AllowedIPs", ip + "/32");
    var text := Unlines([l1, l2, l3]);
    UnlinesThree(l1, l2, l3);
    assert content + ("\n" + text) == content + ['\n'] + text;
    SplitConcat(content, '\n', text);
    assert NoNewlines([l1, l2, l3]);
    SplitUnlines([l1, l2, l3]);
    assert [l1, l2, l3] + [""] == PeerLines(name, key, ip + "/32");
  }

  lemma UnlinesThree(a: string, b: string, c: string)
    ensures Unlines([a, b, c]) == a + "\n" + (b + "\n" + (c + "\n"))
  {
    assert [a, b, c][1..] == [b, c] && [b, c][1..] == [c];
    UnlinesOne(c);
  }

  lemma HeaderNotMark(line: string)
    requires line != "" && !IsSpace(line[0]) && line[0] != '['
    ensures !IsPeerMark(line)
  {
    TrimRightPrefix(line);
    if TrimRight(line) != "" {
      assert TrimLeft(TrimRight(line)) == TrimRight(line);
    }
  }

  lemma SettingStrip(key: string, value: string)
    requires PlainValue(key) && PlainValue(value)
    ensures StripLine(Setting(key, value)) == Setting(key, value)
  {
  }

  lemma SettingSides(key: string, value: string)
    requires PlainValue(key) && PlainValue(value) && '=' !in key
    ensures var line := Setting(key, value);
            var eq := IndexOf(line, '=');
            eq == |key| + 1 && TrimSpace(line[..eq]) == key && TrimSpace(line[eq + 1..]) == value
  {
    hide IndexOf, TrimSpace;
    var line := Setting(key, value);
    PlainIsClean(key);
    PlainIsClean(value);
    assert line == (key + " ") + ['='] + (" " + value);
    IndexOfAt(key + " ", '=', " " + value);
    TrimSolid(key);
    TrimSolid(value);
    assert line[..|key| + 1] == key + " " && line[|key| + 2..] == " " + value;
  }

  /** A `Key = value` line assigns just that and is no header to anyone. */
  lemma SettingLine(st: ParserState, key: string, value: string)
    requires PlainValue(key) && PlainValue(value) && '=' !in key && key[0] != '['
    ensures PlainLine(Setting(key, value))
    ensures Step(st, Setting(key, value)) == Assign(st, key, value)
  {
    hide Assign, IsPeerMark, IndexOf, TrimSpace, StripLine, HeaderName;
    var line := Setting(key, value);
    assert line[0] == key[0];
    HeaderNotMark(line);
    SettingStrip(key, value);
    SettingSides(key, value);
  }

  lemma LowerPeer()
    ensures ToLower("Peer") == "peer" && ToLower("[Peer]") == "[peer]"
  {
  }

  /** The header `appendPeer` writes is a header to all readers, and carries the name. */
  lemma HeaderLine(name: string)
    requires PlainValue(name)
    ensures IsPeerHeader(HeaderText(name))
    ensures IsPeerMark(HeaderText(name)) && NameOf(HeaderText(name)) == name
  {
    hide IsPeerMark, IsHeader, NameOf, HeaderText;
    PlainIsClean(name);
    HeaderLineParsed(name);
    HeaderLineMarked(name);
    HeaderLineNamed(name);
  }

  lemma HeaderLineParsed(name: string)
    ensures IsPeerHeader(HeaderText(name))
  {
    hide IndexOf;
    var line := HeaderText(name);
    assert line == "[Peer]  " + ['#'] + (" " + name);
    IndexOfAt("[Peer]  ", '#', " " + name);
    assert line[..8] == "[Peer]" + "  ";
    TrimSolid("[Peer]");
    assert StripLine(line) == "[Peer]";
    assert "[Peer]"[1..5] == "Peer";
    TrimSolid("Peer");
    LowerPeer();
  }

  lemma HeaderLineMarked(name: string)
    requires Solid(name)
    ensures IsPeerMark(HeaderText(name)) && TrimSpace(HeaderText(name)) == HeaderText(name)
  {
  }

  lemma HeaderLineNamed(name: string)
    requires Solid(name) && IsPeerMark(HeaderText(name)) && TrimSpace(HeaderText(name)) == HeaderText(name)
    ensures NameOf(HeaderText(name)) == name
  {
    hide IndexOf, IsPeerMark, TrimSpace;
    var rest := "# " + name;
    assert HeaderText(name)[6..] == "  " + rest;
    TrimPadded(rest);
    assert rest == "" + ['#'] + (" " + name);
    IndexOfAt("", '#', " " + name);
    assert rest[1..] == " " + name;
    TrimSolid(name);
  }

  lemma TrimPadded(s: string)
    requires Solid(s)
    ensures TrimSpace("  " + s) == s
  {
    var p := "  " + s;
    assert p[|p| - 1] == s[|s| - 1];
    assert TrimRight(p) == p;
    assert p[1..] == " " + s && (" " + s)[1..] == s;
    assert TrimLeft(" " + s) == s;
  }

  function NewPeer(key: string, cidr: string): PeerConfig {
    PeerConfig(key, [cidr], "", 0, "")
  }

  lemma AssignKey(key: string)
    ensures Assign(PEER_START, "PublicKey", key) ==
            Ok(PEER_START.(pending := Some(EMPTY_PEER.(publicKey := key))))
  {
  }

  /** Each `AllowedIPs` line adds to the list. */
  lemma AssignMore(st: ParserState, cidr: string)
    requires st.section == InPeer && st.pending.Some? && PlainValue(cidr)
    ensures Assign(st, "AllowedIPs", cidr) ==
            Ok(st.(pending := Some(st.pending.value.(allowedIPs := st.pending.value.allowedIPs + [cidr]))))
  {
    PlainIsClean(cidr);
    SplitWhole(cidr, ',');
    TrimSolid(cidr);
    assert Addresses([cidr]) == [cidr] by {
      assert [cidr][1..] == [];
    }
    assert ToLower("AllowedIPs") == "allowedips";
    assert "allowedips" != "publickey";
  }

  lemma AssignCidr(key: string, cidr: string)
    requires PlainValue(cidr)
    ensures Assign(PEER_START.(pending := Some(EMPTY_PEER.(publicKey := key))), "AllowedIPs", cidr) ==
            Ok(PEER_START.(pending := Some(NewPeer(key, cidr))))
  {
    hide Assign, PlainValue;
    AssignMore(PEER_START.(pending := Some(EMPTY_PEER.(publicKey := key))), cidr);
    assert [] + [cidr] == [cidr];
  }

  /** The block of a new peer is a peer block for exactly that peer. */
  lemma NewBlock(name: string, key: string, cidr: string)
    requires PlainValue(name) && PlainValue(key) && PlainValue(cidr)
    ensures IsPeerBlock(PeerLines(name, key, cidr))
    ensures BlockRun(PeerLines(name, key, cidr)).Ok? && BlockPeer(PeerLines(name, key, cidr)) == NewPeer(key, cidr)
  {
    hide BlockRun, BlockPeer, Assign, PlainValue, HeaderText, Setting, Step, IsPeerBlock, PlainLine,
         IsPeerMark, IsHeader;
    HeaderLine(name);
    KeywordsArePlain();
    SettingLine(PEER_START, "PublicKey", key);
    SettingLine(PEER_START, "AllowedIPs", cidr);
    FourLineBlock(HeaderText(name), Setting("PublicKey", key), Setting("AllowedIPs", cidr));
    NewBlockRun(name, key, cidr);
    PeerOfRun(PeerLines(name, key, cidr), NewPeer(key, cidr));
  }

  lemma FourLineBlock(header: string, first: string, second: string)
    requires IsPeerMark(header) && IsPeerHeader(header) && PlainLine(first) && PlainLine(second)
    ensures IsPeerBlock([header, first, second, ""])
  {
  }

  lemma PeerOfRun(block: seq<string>, peer: PeerConfig)
    requires BlockRun(block) == Ok(PEER_START.(pending := Some(peer)))
    ensures BlockPeer(block) == peer
  {
  }

  lemma NewBlockRun(name: string, key: string, cidr: string)
    requires PlainValue(key) && PlainValue(cidr)
    ensures BlockRun(PeerLines(name, key, cidr)) == Ok(PEER_START.(pending := Some(NewPeer(key, cidr))))
  {
    hide Step, PlainValue, Assign, HeaderText, Setting;
    KeywordsArePlain();
    var afterKey := PEER_START.(pending := Some(EMPTY_PEER.(publicKey := key)));
    var done := PEER_START.(pending := Some(NewPeer(key, cidr)));
    SettingLine(PEER_START, "PublicKey", key);
    AssignKey(key);
    SettingLine(afterKey, "AllowedIPs", cidr);
    AssignCidr(key, cidr);
    BlankLine(done);
    var lines := PeerLines(name, key, cidr)[1..];
    RunThree(PEER_START, afterKey, done, done, lines);
  }

  lemma KeywordsArePlain()
    ensures PlainValue("PublicKey") && PlainValue("AllowedIPs")
    ensures '=' !in "PublicKey" && '=' !in "AllowedIPs"
  {
  }

  lemma RunThree(a: ParserState, b: ParserState, c: ParserState, d: ParserState, lines: seq<string>)
    requires |lines| == 3
    requires Step(a, lines[0]) == Ok(b) && Step(b, lines[1]) == Ok(c) && Step(c, lines[2]) == Ok(d)
    ensures Run(a, lines) == Ok(d)
  {
    hide Step;
    assert lines[1..][0] == lines[1] && lines[1..][1..] == lines[2..] && lines[2..][0] == lines[2];
    assert lines[2..][1..] == [];
    assert Run(c, lines[2..]) == Ok(d);
    assert Run(b, lines[1..]) == Ok(d);
  }

  // ---- appending ----

  function Appended(content: string, name: string, key: string, ip: string): string {
    content + PeerText(name, key, ip)
  }

  /** Any text that parses, well-formed or not, gains exactly the new peer. */
  lemma AppendParses(content: string, name: string, key: string, ip: string)
    requires PlainValue(name) && PlainValue(key) && PlainValue(ip)
    requires Parse(content).Ok? && |Parse(content).value.peers| < MAX_WG_PEERS
    ensures Parse(Appended(content, name, key, ip)) ==
            Ok(Config(Parse(content).value.iface, Parse(content).value.peers + [NewPeer(key, ip + "/32")]))
  {
    hide IsPeerBlock, BlockRun, BlockPeer, PlainValue, Step, PeerLines, PeerText, Split;
    CidrIsPlain(ip);
    var lines, block := Split(content, '\n'), PeerLines(name, key, ip + "/32");
    ParseSplit(content);
    ParseSplit(Appended(content, name, key, ip));
    SplitAppended(content, name, key, ip);
    RunConcat(START, lines, block);
    RunInvariant(START, lines);
    NewBlock(name, key, ip + "/32");
    RunBlock(Run(START, lines).value, block);
  }

  lemma CidrIsPlain(ip: string)
    requires PlainValue(ip)
    ensures PlainValue(ip + "/32")
  {
  }

  /** A well-formed text stays well-formed and gains the block at the end. */
  lemma AppendBlocks(content: string, name: string, key: string, ip: string)
    requires PlainValue(name) && PlainValue(key) && PlainValue(ip)
    requires WF(content)
    ensures BlocksOf(Appended(content, name, key, ip)) == BlocksOf(content) + [PeerLines(name, key, ip + "/32")]
    ensures WF(Appended(content, name, key, ip))
  {
    hide IsPeerMark, IsPeerBlock, IsPreamble, BlockRun, BlockPeer, PlainValue, PeerText, WF;
    CidrIsPlain(ip);
    var text := Appended(content, name, key, ip);
    var lines, block := Split(content, '\n'), PeerLines(name, key, ip + "/32");
    var blocks := BlocksOf(content);
    SplitAppended(content, name, key, ip);
    NewBlock(name, key, ip + "/32");
    NewBlockCut(name, key, ip + "/32");
    CutConcat(IsPeerMark, lines, block);
    WFIsBlocks(content);
    WFIsBlocks(text);
    assert (blocks + [block])[1..] == blocks[1..] + [block];
  }

  lemma NewBlockCut(name: string, key: string, cidr: string)
    requires IsPeerBlock(PeerLines(name, key, cidr))
    ensures IsPeerMark(PeerLines(name, key, cidr)[0])
    ensures Blocks(PeerLines(name, key, cidr)) == [PeerLines(name, key, cidr)]
  {
    hide IsPeerMark, IsHeader;
    var block := PeerLines(name, key, cidr);
    FlattenOne(block);
    CutUnique(IsPeerMark, [block]);
  }

  /** Removing the peer just appended restores the text, plus one newline. */
  lemma AppendThenRemove(content: string, name: string, key: string, ip: string)
    requires PlainValue(name) && PlainValue(key) && PlainValue(ip)
    requires WF(content) && Parse(content).Ok?
    ensures WithoutBlock(Appended(content, name, key, ip), |Parse(content).value.peers|) == Some(content + "\n")
  {
    hide IsPeerMark, IsPeerBlock, IsPreamble, BlockRun, BlockPeer, PlainValue, PeerLines, WF;
    var blocks := BlocksOf(content);
    AppendBlocks(content, name, key, ip);
    WFIsBlocks(content);
    ParseSplit(content);
    ParseBlocks(blocks);
    var block := PeerLines(name, key, ip + "/32");
    assert DropAt(blocks + [block], |blocks|) == blocks;
    SectionsConcatenate(content);
  }

  // ---- listing ----

  datatype PeerInfo = PeerInfo(index: nat, name: string, publicKey: string, ip: string)

  /** One row of `List`: the peer's own address, and its name or a numbered default. */
  function Row(i: nat, peer: PeerConfig, name: string): PeerInfo {
    PeerInfo(
      i + 1,
      if name == "" then "device-" + Decimal.FormatNat(i + 1) else name,
      peer.publicKey,
      if peer.allowedIPs == [] then "" else TrimSuffix(peer.allowedIPs[0], "/32"))
  }

  /** Its number, its name or else a numbered one, its key, and its first address without the `/32`. */
  lemma RowMeaning(i: nat, peer: PeerConfig, name: string)
    ensures var row := Row(i, peer, name);
            row.index == i + 1 && row.publicKey == peer.publicKey &&
            row.name == (if name == "" then "device-" + Decimal.FormatNat(i + 1) else name)
    ensures peer.allowedIPs == [] ==> Row(i, peer, name).ip == ""
    ensures peer.allowedIPs != [] ==>
              var ip, first := Row(i, peer, name).ip, peer.allowedIPs[0];
              (first == ip || first == ip + "/32") && forall host :: first == host + "/32" ==> ip == host
  {
    if peer.allowedIPs != [] {
      var first := peer.allowedIPs[0];
      forall host | first == host + "/32" ensures TrimSuffix(first, "/32") == host {
        assert (host + "/32")[|host|..] == "/32";
      }
    }
  }

  function Rows(peers: seq<PeerConfig>, names: seq<string>): (r: seq<PeerInfo>)
    ensures |r| == |peers|
  {
    seq(|peers|, i requires 0 <= i < |peers| => Row(i, peers[i], if i < |names| then names[i] else ""))
  }

  function Listing(content: string): Result<seq<PeerInfo>, ParseError> {
    match Parse(content)
    case Err(e) => Err(e)
    case Ok(cfg) => Ok(Rows(cfg.peers, Names(Split(content, '\n'))))
  }

  lemma {:induction false} NamesOfPeerBlocks(blocks: seq<seq<string>>)
    requires PeerBlocks(blocks)
    ensures |BlockNames(blocks)| == |blocks|
    ensures forall i :: 0 <= i < |blocks| ==> BlockNames(blocks)[i] == NameOf(blocks[i][0])
  {
    hide IsPeerMark, IsHeader, NameOf;
    if blocks != [] {
      NamesOfPeerBlocks(blocks[1..]);
      assert NameAt(blocks[0][0]) == [NameOf(blocks[0][0])];
      forall i | 0 <= i < |blocks| ensures BlockNames(blocks)[i] == NameOf(blocks[i][0]) {
        assert i > 0 ==> blocks[i] == blocks[1..][i - 1];
      }
    }
  }

  lemma NamesOfText(content: string)
    requires WF(content)
    ensures Names(Split(content, '\n')) == BlockNames(BlocksOf(content)[1..])
    ensures |BlockNames(BlocksOf(content)[1..])| == |BlocksOf(content)| - 1
  {
    hide WF, IsPeerMark, IsHeader, NameAt;
    var blocks := BlocksOf(content);
    WFIsBlocks(content);
    CutShape(IsPeerMark, Split(content, '\n'));
    NamesOfBlocks(blocks);
    assert NameAt(blocks[0][0]) == [] by {
      assert !IsPeerMark(blocks[0][0]);
      UnmarkedHasNoName(blocks[0][0]);
    }
    NamesOfPeerBlocks(blocks[1..]);
  }

  lemma UnmarkedHasNoName(line: string)
    requires !IsPeerMark(line)
    ensures NameAt(line) == []
  {
  }

  /** The three readers agree: as many peers as names as sections, and each row pairs a block's name with its key. */
  lemma ReadersPair(content: string)
    requires WF(content) && Parse(content).Ok?
    ensures |Parse(content).value.peers| == |Names(Split(content, '\n'))| == |BlocksOf(content)| - 1
    ensures PeerBlocks(BlocksOf(content)[1..]) && Listing(content).Ok?
    ensures |Listing(content).value| == |BlocksOf(content)| - 1
    ensures forall i :: 0 <= i < |BlocksOf(content)| - 1 ==>
                          var block := BlocksOf(content)[1..][i];
                          Listing(content).value[i] == Row(i, BlockPeer(block), NameOf(block[0]))
  {
    hide WF, IsPeerBlock, IsPreamble, BlockPeer, BlockRun, Row, Names, NameOf;
    var blocks := BlocksOf(content);
    WFIsBlocks(content);
    ParseSplit(content);
    ParseBlocks(blocks);
    NamesOfText(content);
    NamesOfPeerBlocks(blocks[1..]);
  }

  /** A peer just added is listed last, under its name; the rows before it are unchanged. */
  lemma AppendLists(content: string, name: string, key: string, ip: string)
    requires PlainValue(name) && PlainValue(key) && PlainValue(ip)
    requires WF(content) && Parse(content).Ok? && |Parse(content).value.peers| < MAX_WG_PEERS
    ensures Listing(Appended(content, name, key, ip)) ==
            Ok(Listing(content).value + [PeerInfo(|Parse(content).value.peers| + 1, name, key, ip)])
  {
    hide WF, Names, PlainValue, Parse, Row, Rows, HeaderText, PeerText, Split, NewPeer, Blocks, NameOf, BlockPeer;
    var text := Appended(content, name, key, ip);
    var peers, names := Parse(content).value.peers, Names(Split(content, '\n'));
    AppendParses(content, name, key, ip);
    AppendNames(content, name, key, ip);
    ReadersPair(content);
    NewRow(|peers|, name, key, ip);
    RowsSnoc(peers, NewPeer(key, ip + "/32"), names, name);
  }

  lemma RowsSnoc(peers: seq<PeerConfig>, peer: PeerConfig, names: seq<string>, name: string)
    requires |peers| == |names|
    ensures Rows(peers + [peer], names + [name]) == Rows(peers, names) + [Row(|peers|, peer, name)]
  {
  }

  lemma NewRow(i: nat, name: string, key: string, ip: string)
    requires PlainValue(name)
    ensures Row(i, NewPeer(key, ip + "/32"), name) == PeerInfo(i + 1, name, key, ip)
  {
  }

  lemma AppendNames(content: string, name: string, key: string, ip: string)
    requires PlainValue(name) && PlainValue(key) && PlainValue(ip) && WF(content)
    ensures Names(Split(Appended(content, name, key, ip), '\n')) == Names(Split(content, '\n')) + [name]
  {
    hide WF, Names, PlainValue, NameAt, HeaderText, PeerText, Split, IsPeerMark, NameOf;
    var blocks, block := BlocksOf(content), PeerLines(name, key, ip + "/32");
    AppendBlocks(content, name, key, ip);
    NamesOfText(content);
    NamesOfText(Appended(content, name, key, ip));
    assert (blocks + [block])[1..] == blocks[1..] + [block];
    BlockNamesSnoc(blocks[1..], block);
    HeaderLine(name);
    NameAtHeader(name);
  }

  lemma NameAtHeader(name: string)
    requires IsPeerMark(HeaderText(name)) && NameOf(HeaderText(name)) == name
    ensures NameAt(HeaderText(name)) == [name]
  {
    hide IsPeerMark, NameOf;
  }

  lemma {:induction false} BlockNamesSnoc(blocks: seq<seq<string>>, block: seq<string>)
    requires block != []
    ensures BlockNames(blocks + [block]) == BlockNames(blocks) + NameAt(block[0])
  {
    hide NameAt;
    if blocks == [] {
      assert [block][1..] == [];
      assert blocks + [block] == [block];
    } else {
      var head := if blocks[0] == [] then [] else NameAt(blocks[0][0]);
      BlockNamesSnoc(blocks[1..], block);
      assert (blocks + [block])[1..] == blocks[1..] + [block];
      Associate(head, BlockNames(blocks[1..]), NameAt(block[0]));
    }
  }
}
