/** What goes wrong with `Remove` on texts that are not well-formed, clause by clause. */
module ConfLimits {
  import opened Wrappers
  import opened Text
  import opened Cutting
  import opened WgConfig
  import opened Sections
  import opened ConfFile
  import opened ConfEdits
  import opened ConfAppend

  // ---- peers in the first section ----

  /** No section but the first holds an interface header. */
  predicate InterfaceInHead(blocks: seq<seq<string>>) {
    forall i, j :: 1 <= i < |blocks| && 0 <= j < |blocks[i]| ==> !IsInterfaceHeader(blocks[i][j])
  }

  /** The blocks behind the first each start with their only header. */
  predicate EachASection(blocks: seq<seq<string>>) {
    forall i :: 1 <= i < |blocks| ==> IsSection(blocks[i])
  }

  /** When the readers agree, every block behind the first is a section, and a header in the first leads the text. */
  lemma AgreeingSections(content: string)
    requires ReadersAgree(Split(content, '\n'))
    ensures EachASection(BlocksOf(content))
    ensures CountPeerHeaders(BlocksOf(content)[0]) == if IsPeerMark(Split(content, '\n')[0]) then 1 else 0
  {
    hide IsPeerMark, IsHeader, Split;
    var lines, blocks := Split(content, '\n'), BlocksOf(content);
    CutShape(IsPeerMark, lines);
    forall i, j | 0 <= i < |blocks| && 0 <= j < |blocks[i]|
      ensures IsPeerMark(blocks[i][j]) <==> IsPeerHeader(blocks[i][j])
    {
      FlattenMember(blocks, blocks[i][j]);
    }
    NoHeaders(blocks[0][1..]);
  }

  /** Readers that agree and an interface in the first section leave peer blocks behind it, whatever it holds itself. */
  lemma AgreeingBlocks(content: string)
    requires ReadersAgree(Split(content, '\n')) && InterfaceInHead(BlocksOf(content))
    ensures PeerBlocks(BlocksOf(content)[1..])
    ensures CountPeerHeaders(BlocksOf(content)[0]) == if IsPeerMark(Split(content, '\n')[0]) then 1 else 0
  {
    hide IsPeerMark, IsHeader, Split;
    var lines, blocks := Split(content, '\n'), BlocksOf(content);
    AgreeingSections(content);
    CutShape(IsPeerMark, lines);
    forall i | 0 <= i < |blocks| - 1 ensures IsPeerBlock(blocks[1..][i]) {
      assert blocks[1..][i] == blocks[i + 1];
    }
  }

  /** The first block may hold peers of its own; every block behind it adds one. */
  lemma ParseHeadThenPeers(blocks: seq<seq<string>>)
    requires blocks != [] && PeerBlocks(blocks[1..])
    ensures ParseLines(Flatten(blocks)).Ok? ==>
              Run(START, blocks[0]).Ok? && AllRun(blocks[1..]) &&
              |Run(START, blocks[0]).value.Peers()| == CountPeerHeaders(blocks[0]) &&
              |blocks| - 1 + CountPeerHeaders(blocks[0]) <= MAX_WG_PEERS
    ensures Run(START, blocks[0]).Ok? && AllRun(blocks[1..]) &&
            |blocks| - 1 + CountPeerHeaders(blocks[0]) <= MAX_WG_PEERS ==>
              ParseLines(Flatten(blocks)) ==
              Ok(Config(Run(START, blocks[0]).value.iface,
                        Run(START, blocks[0]).value.Peers() + BlockPeersOf(blocks[1..])))
  {
    hide IsPeerBlock, BlockRun, BlockPeer, Step, IsHeader, PeerBlocks, AllRun, BlockPeersOf, CountPeerHeaders;
    RunConcat(START, blocks[0], Flatten(blocks[1..]));
    if Run(START, blocks[0]).Ok? {
      RunInvariant(START, blocks[0]);
      RunBlocks(Run(START, blocks[0]).value, blocks[1..]);
    }
  }

  lemma DroppedTail(blocks: seq<seq<string>>, i: nat)
    requires i + 1 < |blocks| && PeerBlocks(blocks[1..]) && AllRun(blocks[1..])
    ensures var left := DropAt(blocks, i + 1);
            left[0] == blocks[0] && left[1..] == DropAt(blocks[1..], i) &&
            PeerBlocks(left[1..]) && AllRun(left[1..]) &&
            BlockPeersOf(left[1..]) == DropAt(BlockPeersOf(blocks[1..]), i)
  {
    hide IsPeerBlock, BlockRun, BlockPeer;
    assert DropAt(blocks, i + 1)[1..] == DropAt(blocks[1..], i);
  }

  lemma DropBehind<T>(a: seq<T>, b: seq<T>, i: nat)
    requires i < |b|
    ensures DropAt(a + b, |a| + i) == a + DropAt(b, i)
  {
  }

  /**
   * With h peer headers in the first section every index is off by h: `Remove` of peer i takes out peer i + h, and
   * the last h peers cannot be removed. The splitter keeps everything before its first cut in the first section.
   */
  lemma HeadShifts(content: string, i: nat)
    requires PeerBlocks(BlocksOf(content)[1..]) && Parse(content).Ok? && i < |Parse(content).value.peers|
    ensures var h, peers := CountPeerHeaders(BlocksOf(content)[0]), Parse(content).value.peers;
            (i + h >= |peers| ==> WithoutBlock(content, i).None?) &&
            (i + h < |peers| ==>
               WithoutBlock(content, i).Some? &&
               Parse(WithoutBlock(content, i).value) == Ok(Config(Parse(content).value.iface, DropAt(peers, i + h))))
  {
    hide PeerBlocks, AllRun, BlockRun, BlockPeer, CleanBlocks, Parse, ParseLines, Run, BlocksOf, Split,
         CountPeerHeaders, Texts, Concat, Flatten, BlockPeersOf;
    var blocks := BlocksOf(content);
    BlocksCover(content);
    ParseSplit(content);
    ParseHeadThenPeers(blocks);
    if i + 1 < |blocks| {
      var left := DropAt(blocks, i + 1);
      BlocksOfAreClean(content);
      DroppedClean(blocks, i + 1);
      DroppedTail(blocks, i);
      ParseHeadThenPeers(left);
      JoinedParse(left);
      DropBehind(Run(START, blocks[0]).value.Peers(), BlockPeersOf(blocks[1..]), i);
    }
  }

  /**
   * A peer header on the first line, with the interface behind it or not: `Remove` of any peer but the last takes out
   * its successor, and the last peer cannot be removed.
   */
  lemma LeadingHeaderShifts(content: string, i: nat)
    requires IsPeerMark(Split(content, '\n')[0])
    requires ReadersAgree(Split(content, '\n')) && InterfaceInHead(BlocksOf(content))
    requires Parse(content).Ok? && i < |Parse(content).value.peers|
    ensures i + 1 == |Parse(content).value.peers| ==> WithoutBlock(content, i).None?
    ensures i + 1 < |Parse(content).value.peers| ==>
              WithoutBlock(content, i).Some? &&
              Parse(WithoutBlock(content, i).value) ==
              Ok(Config(Parse(content).value.iface, DropAt(Parse(content).value.peers, i + 1)))
  {
    hide IsPeerMark, IsHeader, ReadersAgree, InterfaceInHead, PeerBlocks, Parse, WithoutBlock, CountPeerHeaders;
    AgreeingBlocks(content);
    HeadShifts(content, i);
  }

  lemma DroppedClean(blocks: seq<seq<string>>, i: nat)
    requires CleanBlocks(blocks) && i < |blocks|
    ensures CleanBlocks(DropAt(blocks, i))
  {
  }

  // ---- more lines at the end ----

  lemma LineMore(content: string, line: string)
    requires '\n' !in line
    ensures Split(content + "\n" + line, '\n') == Split(content, '\n') + [line]
  {
    hide Split;
    assert content + "\n" + line == content + ['\n'] + line;
    SplitConcat(content, '\n', line);
    SplitWhole(line, '\n');
  }

  /** An unmarked line at the end belongs to the last block, and goes with it. */
  lemma LineMoreBlocks(content: string, line: string)
    requires '\n' !in line && !IsPeerMark(line)
    ensures |BlocksOf(content + "\n" + line)| == |BlocksOf(content)|
    ensures |BlocksOf(content)| > 1 ==>
              WithoutBlock(content + "\n" + line, |BlocksOf(content)| - 2) ==
              WithoutBlock(content, |BlocksOf(content)| - 2)
  {
    hide IsPeerMark, Split, Texts, Concat;
    LineMore(content, line);
    CutSnoc(IsPeerMark, Split(content, '\n'), line);
    var before, after := BlocksOf(content), BlocksOf(content + "\n" + line);
    var n := |before| - 1;
    if n > 0 {
      assert DropAt(after, n) == DropAt(before, n);
    }
  }

  function Tailed(content: string, first: string, second: string): string {
    content + "\n" + first + "\n" + second
  }

  lemma TailedLines(content: string, first: string, second: string)
    requires '\n' !in first && '\n' !in second
    ensures Split(Tailed(content, first, second), '\n') == Split(content, '\n') + [first, second]
  {
    hide Split;
    LineMore(content, first);
    LineMore(content + "\n" + first, second);
    assert Split(content, '\n') + [first] + [second] == Split(content, '\n') + [first, second];
  }

  lemma TailedBlocks(content: string, first: string, second: string)
    requires '\n' !in first && '\n' !in second && !IsPeerMark(first) && !IsPeerMark(second)
    ensures |BlocksOf(Tailed(content, first, second))| == |BlocksOf(content)|
    ensures |BlocksOf(content)| > 1 ==>
              WithoutBlock(Tailed(content, first, second), |BlocksOf(content)| - 2) ==
              WithoutBlock(content, |BlocksOf(content)| - 2)
  {
    hide IsPeerMark, BlocksOf, WithoutBlock;
    LineMoreBlocks(content, first);
    LineMoreBlocks(content + "\n" + first, second);
  }

  // ---- headers only one reader sees ----

  /** The peer headers of a text after `Remove(i)`. */
  function HeadersWithout(content: string, i: nat): Option<nat> {
    match WithoutBlock(content, i)
    case None => None
    case Some(text) => Some(CountPeerHeaders(Split(text, '\n')))
  }

  lemma {:induction false} CountConcat(a: seq<string>, b: seq<string>)
    ensures CountPeerHeaders(a + b) == CountPeerHeaders(a) + CountPeerHeaders(b)
  {
    hide IsHeader;
    if a == [] {
      assert a + b == b;
    } else {
      CountConcat(a[1..], b);
      assert (a + b)[1..] == a[1..] + b;
    }
  }

  lemma CountDropped(blocks: seq<seq<string>>, k: nat)
    requires k < |blocks|
    ensures CountPeerHeaders(Flatten(blocks)) ==
            CountPeerHeaders(Flatten(DropAt(blocks, k))) + CountPeerHeaders(blocks[k])
  {
    hide CountPeerHeaders, Flatten;
    var front, block, back := blocks[..k], blocks[k], blocks[k + 1..];
    assert blocks == front + ([block] + back);
    FlattenConcat(front, [block] + back);
    FlattenConcat([block], back);
    FlattenOne(block);
    FlattenConcat(front, back);
    CountMiddle(Flatten(front), block, Flatten(back));
  }

  lemma CountMiddle(a: seq<string>, b: seq<string>, c: seq<string>)
    ensures CountPeerHeaders(a + (b + c)) == CountPeerHeaders(a + c) + CountPeerHeaders(b)
  {
    hide CountPeerHeaders;
    CountConcat(a, b + c);
    CountConcat(b, c);
    CountConcat(a, c);
  }

  lemma BlocksCover(content: string)
    ensures Flatten(BlocksOf(content)) == Split(content, '\n')
  {
    hide IsPeerMark, Split;
    CutShape(IsPeerMark, Split(content, '\n'));
  }

  lemma HeadersOfWithout(content: string, i: nat)
    requires i + 1 < |BlocksOf(content)|
    ensures HeadersWithout(content, i) ==
            Some(CountPeerHeaders(Split(content, '\n')) - CountPeerHeaders(BlocksOf(content)[i + 1]))
  {
    hide IsPeerMark, IsHeader, CountPeerHeaders, CleanBlocks, DropAt, Split, Flatten, Texts, Concat, BlocksOf;
    var blocks := BlocksOf(content);
    var left := DropAt(blocks, i + 1);
    BlocksOfAreClean(content);
    DroppedClean(blocks, i + 1);
    JoinedParse(left);
    BlocksCover(content);
    CountDropped(blocks, i + 1);
    CountConcat(Flatten(left), [""]);
    BlankHasNoHeader();
  }

  lemma BlankHasNoHeader()
    ensures CountPeerHeaders([""]) == 0
  {
  }

  /**
   * On any text at all: every `Remove` takes out exactly one parsed peer if and only if each of the blocks it can
   * name holds exactly one header the parser accepts.
   */
  lemma RemovalCountExact(content: string)
    ensures var n := CountPeerHeaders(Split(content, '\n'));
            (forall i: nat {:trigger HeadersWithout(content, i)} :: i < n ==>
               HeadersWithout(content, i) == Some(n - 1)) <==>
            n < |BlocksOf(content)| &&
            forall j {:trigger BlocksOf(content)[j]} :: 1 <= j <= n ==> CountPeerHeaders(BlocksOf(content)[j]) == 1
  {
    hide CountPeerHeaders, BlocksOf;
    var n := CountPeerHeaders(Split(content, '\n'));
    var blocks := BlocksOf(content);
    if forall i: nat {:trigger HeadersWithout(content, i)} :: i < n ==> HeadersWithout(content, i) == Some(n - 1) {
      if n > 0 {
        assert HeadersWithout(content, n - 1) == Some(n - 1);
      }
      forall j {:trigger blocks[j]} | 1 <= j <= n ensures CountPeerHeaders(blocks[j]) == 1 {
        assert HeadersWithout(content, j - 1) == Some(n - 1);
        HeadersOfWithout(content, j - 1);
      }
    }
    if n < |blocks| && forall j {:trigger blocks[j]} :: 1 <= j <= n ==> CountPeerHeaders(blocks[j]) == 1 {
      forall i: nat {:trigger HeadersWithout(content, i)} | i < n ensures HeadersWithout(content, i) == Some(n - 1) {
        HeadersOfWithout(content, i);
      }
    }
  }

  lemma SpacedHeader()
    ensures IsPeerHeader("[ Peer ]") && !IsPeerMark("[ Peer ]") && '\n' !in "[ Peer ]"
  {
    hide IndexOf;
    var line := "[ Peer ]";
    assert '#' !in line;
    TrimSolid(line);
    assert line[1..7] == " Peer ";
    assert TrimRight(" Peer ") == " Peer" by {
      assert " Peer "[..5] == " Peer";
    }
    assert " Peer"[1..] == "Peer";
    LowerPeer();
    assert ToLower(line)[1] == ' ';
    assert "[peer]"[1] == 'p';
  }

  /** A peer under a header with inner blanks. */
  function SpacedPeer(content: string, key: string): string {
    Tailed(content, "[ Peer ]", Setting("PublicKey", key))
  }

  lemma SpacedRun(st: ParserState, key: string)
    requires |st.Peers()| < MAX_WG_PEERS && PlainValue(key)
    ensures Run(st, ["[ Peer ]", Setting("PublicKey", key)]) ==
            Ok(ParserState(InPeer, Some(EMPTY_PEER.(publicKey := key)), st.iface, st.Peers()))
    ensures !IsPeerMark(Setting("PublicKey", key))
  {
    hide IsHeader, IsPeerMark, PlainValue, Setting, Step, Assign;
    var lines := ["[ Peer ]", Setting("PublicKey", key)];
    var mid := ParserState(InPeer, Some(EMPTY_PEER), st.iface, st.Peers());
    SpacedHeader();
    HeaderStep(st, "[ Peer ]");
    assert st.Peers() + PEER_START.committed == st.Peers();
    KeywordsArePlain();
    SettingLine(mid, "PublicKey", key);
    AssignFirstKey(mid, key);
    RunTwo(st, mid, lines);
  }

  lemma AssignFirstKey(st: ParserState, key: string)
    requires st.section == InPeer && st.pending == Some(EMPTY_PEER)
    ensures Assign(st, "PublicKey", key) == Ok(st.(pending := Some(EMPTY_PEER.(publicKey := key))))
  {
    AssignKey(key);
  }

  /**
   * A header with inner blanks is a peer to the parser alone, and to the other two readers part of the section before
   * it. That peer's own index cannot be removed; and removing the ordinary peer before it takes both out of the file.
   */
  lemma SpacedHeaderVanishes(content: string, key: string)
    requires WF(content) && Parse(content).Ok? && |Parse(content).value.peers| < MAX_WG_PEERS && PlainValue(key)
    ensures var text, cfg := SpacedPeer(content, key), Parse(content).value;
            var n := |cfg.peers|;
            Parse(text) == Ok(Config(cfg.iface, cfg.peers + [EMPTY_PEER.(publicKey := key)])) &&
            WithoutBlock(text, n).None? &&
            (n > 0 ==>
               WithoutBlock(text, n - 1).Some? &&
               Parse(WithoutBlock(text, n - 1).value) == Ok(Config(cfg.iface, DropAt(cfg.peers, n - 1))))
  {
    hide WF, PlainValue, Parse, WithoutBlock, Names, Row, NameOf, IsPeerBlock, BlocksOf, SpacedPeer, BlockPeer;
    var n := |Parse(content).value.peers|;
    SpacedParse(content, key);
    SpacedBlocks(content, key);
    ReadersPair(content);
    NoSuchBlock(SpacedPeer(content, key), n);
    if n > 0 {
      RemovalCommutes(content, n - 1);
    }
  }

  lemma SpacedBlocks(content: string, key: string)
    requires PlainValue(key)
    ensures |BlocksOf(SpacedPeer(content, key))| == |BlocksOf(content)|
    ensures |BlocksOf(content)| > 1 ==>
              WithoutBlock(SpacedPeer(content, key), |BlocksOf(content)| - 2) ==
              WithoutBlock(content, |BlocksOf(content)| - 2)
  {
    hide PlainValue, Setting, WithoutBlock, BlocksOf, IsPeerMark, Tailed, IsHeader;
    SpacedHeader();
    PlainIsClean(key);
    SettingIsClean("PublicKey", key);
    SpacedRun(START, key);
    TailedBlocks(content, "[ Peer ]", Setting("PublicKey", key));
  }

  lemma NoSuchBlock(content: string, i: nat)
    requires i + 1 >= |BlocksOf(content)|
    ensures WithoutBlock(content, i).None?
  {
  }

  lemma SettingIsClean(key: string, value: string)
    requires '\n' !in key && '\n' !in value
    ensures '\n' !in Setting(key, value)
  {
  }

  lemma SpacedParse(content: string, key: string)
    requires Parse(content).Ok? && |Parse(content).value.peers| < MAX_WG_PEERS && PlainValue(key)
    ensures Parse(SpacedPeer(content, key)) ==
            Ok(Config(Parse(content).value.iface,
                      Parse(content).value.peers + [EMPTY_PEER.(publicKey := key)]))
  {
    hide Step, Split, PlainValue, Setting, Parse, Tailed, IsPeerMark, Run;
    var lines, line := Split(content, '\n'), Setting("PublicKey", key);
    PlainIsClean(key);
    SettingIsClean("PublicKey", key);
    TailedLines(content, "[ Peer ]", line);
    ParseSplit(content);
    ParseSplit(SpacedPeer(content, key));
    RunConcat(START, lines, ["[ Peer ]", line]);
    SpacedRun(Run(START, lines).value, key);
  }

  /** A section without a header the parser accepts: `Remove` of its number leaves every parsed peer in the file. */
  lemma HeaderlessSectionKeepsPeers(content: string, i: nat)
    requires i + 1 < |BlocksOf(content)| && CountPeerHeaders(BlocksOf(content)[i + 1]) == 0
    ensures HeadersWithout(content, i) == Some(CountPeerHeaders(Split(content, '\n')))
  {
    hide BlocksOf, CountPeerHeaders, Split;
    HeadersOfWithout(content, i);
  }

  /** A mark with text behind it, as in `[Peer] phone`. */
  function Labelled(tag: string): string {
    "[Peer] " + tag
  }

  /** The other two readers take it for a peer header, the parser for a line that says nothing. */
  lemma LabelledHeader(tag: string, st: ParserState)
    requires LegalName(tag)
    ensures IsPeerMark(Labelled(tag)) && !IsPeerHeader(Labelled(tag)) && Step(st, Labelled(tag)) == Ok(st)
    ensures '\n' !in Labelled(tag)
  {
    hide IndexOf, ToLower;
    var line := Labelled(tag);
    assert line[0] == '[' && line[|line| - 1] == tag[|tag| - 1];
    assert '#' !in line && '=' !in line && '\n' !in line;
    TrimSolid(line);
    assert StripLine(line) == line;
    LowerPrefix(tag);
  }

  lemma LowerPrefix(tag: string)
    ensures "[peer]" <= ToLower("[Peer] " + tag)
  {
  }

  /** A labelled mark on a line of its own, and then a peer as `Add` writes it. */
  function LabelledThenPeer(content: string, tag: string, name: string, key: string, ip: string): string {
    Appended(content + "\n" + Labelled(tag), name, key, ip)
  }

  /** Removing that peer returns a text that still lists it. */
  lemma LabelledPeerStays(content: string, tag: string, name: string, key: string, ip: string)
    requires WF(content) && Parse(content).Ok? && |Parse(content).value.peers| < MAX_WG_PEERS
    requires LegalName(tag) && PlainValue(name) && PlainValue(key) && PlainValue(ip)
    ensures var text, cfg := LabelledThenPeer(content, tag, name, key, ip), Parse(content).value;
            var n := |cfg.peers|;
            Parse(text) == Ok(Config(cfg.iface, cfg.peers + [NewPeer(key, ip + "/32")])) &&
            WithoutBlock(text, n).Some? && Parse(WithoutBlock(text, n).value) == Parse(text)
  {
    hide WF, PlainValue, LegalName, Parse, PeerText, PeerLines, Labelled, Split, Names, Row, NameOf, IsPeerBlock, Step,
         IsPeerMark, IsPreamble, BlockRun, BlockPeer, Texts, Concat, Cut, Flatten, CleanBlocks, IsHeader, Run;
    var mark, block := Labelled(tag), PeerLines(name, key, ip + "/32");
    var blocks := BlocksOf(content);
    LabelledParse(content, tag);
    AppendParses(content + "\n" + mark, name, key, ip);
    LabelledBlocks(content, tag, name, key, ip);
    ReadersPair(content);
    var text := LabelledThenPeer(content, tag, name, key, ip);
    assert DropAt(BlocksOf(text), |blocks|) == blocks + [block];
    BlocksOfAreClean(text);
    DroppedClean(BlocksOf(text), |blocks|);
    JoinedParse(blocks + [block]);
    AppendParses(content, name, key, ip);
    ParseSplit(Appended(content, name, key, ip));
    SplitAppended(content, name, key, ip);
    BlocksCover(content);
    FlattenConcat(blocks, [block]);
    FlattenOne(block);
  }

  lemma LabelledLines(content: string, tag: string)
    requires LegalName(tag)
    ensures Split(content + "\n" + Labelled(tag), '\n') == Split(content, '\n') + [Labelled(tag)]
  {
    hide LegalName, Labelled, Split, IsPeerMark, IsHeader, Step;
    LabelledHeader(tag, START);
    LineMore(content, Labelled(tag));
  }

  lemma LabelledParse(content: string, tag: string)
    requires LegalName(tag)
    ensures Parse(content + "\n" + Labelled(tag)) == Parse(content)
  {
    hide LegalName, Labelled, Split, Step, Run, IsPeerMark, IsHeader, Parse;
    var lines := Split(content, '\n');
    LabelledLines(content, tag);
    ParseSplit(content);
    ParseSplit(content + "\n" + Labelled(tag));
    RunConcat(START, lines, [Labelled(tag)]);
    if Run(START, lines).Ok? {
      RunOne(Run(START, lines).value, Labelled(tag));
      LabelledHeader(tag, Run(START, lines).value);
    }
  }

  lemma LabelledBlocks(content: string, tag: string, name: string, key: string, ip: string)
    requires LegalName(tag) && PlainValue(name) && PlainValue(key) && PlainValue(ip)
    ensures BlocksOf(LabelledThenPeer(content, tag, name, key, ip)) ==
            BlocksOf(content) + [[Labelled(tag)]] + [PeerLines(name, key, ip + "/32")]
  {
    hide LegalName, PlainValue, Labelled, Split, Step, IsPeerMark, IsHeader, PeerLines, PeerText, BlockRun, BlockPeer;
    var mark, lines, block := Labelled(tag), Split(content, '\n'), PeerLines(name, key, ip + "/32");
    LabelledLines(content, tag);
    LabelledHeader(tag, START);
    SplitAppended(content + "\n" + mark, name, key, ip);
    CidrIsPlain(ip);
    NewBlock(name, key, ip + "/32");
    NewBlockCut(name, key, ip + "/32");
    CutConcat(IsPeerMark, lines, [mark]);
    CutConcat(IsPeerMark, lines + [mark], block);
  }

  lemma RunOne(st: ParserState, line: string)
    ensures Run(st, [line]) == Step(st, line)
  {
  }

  // ---- a late interface section ----

  lemma LowerInterface()
    ensures ToLower("Interface") == "interface"
  {
    var low, want := ToLower("Interface"), "interface";
    assert low[0] == want[0] && low[1] == want[1] && low[2] == want[2] && low[3] == want[3] && low[4] == want[4];
    assert low[5] == want[5] && low[6] == want[6] && low[7] == want[7] && low[8] == want[8];
  }

  lemma InterfaceHeaderLine()
    ensures StripLine("[Interface]") == "[Interface]" && HeaderName("[Interface]") == "interface"
    ensures !IsPeerMark("[Interface]") && '\n' !in "[Interface]"
  {
    hide IndexOf, ToLower, IsPeerMark;
    assert '#' !in "[Interface]";
    TrimSolid("[Interface]");
    assert "[Interface]"[1..10] == "Interface";
    TrimSolid("Interface");
    LowerInterface();
    InterfaceNotMark();
  }

  lemma InterfaceNotMark()
    ensures !IsPeerMark("[Interface]")
  {
    TrimSolid("[Interface]");
    assert ToLower("[Interface]")[1] == 'i' && "[peer]"[1] == 'p';
  }

  function LateKey(content: string, key: string): string {
    Tailed(content, "[Interface]", Setting("PrivateKey", key))
  }

  lemma LateKeyRun(st: ParserState, key: string)
    requires PlainValue(key)
    ensures Run(st, ["[Interface]", Setting("PrivateKey", key)]) ==
            Ok(ParserState(InInterface, None, st.iface.(privateKey := key), st.Peers()))
    ensures !IsPeerMark(Setting("PrivateKey", key))
  {
    hide StripLine, HeaderName, IsPeerMark, PlainValue, Setting, IndexOf, TrimSpace;
    var lines := ["[Interface]", Setting("PrivateKey", key)];
    var mid := ParserState(InInterface, None, st.iface, st.Peers());
    InterfaceHeaderLine();
    assert Step(st, "[Interface]") == Ok(mid);
    PrivateKeyIsPlain();
    SettingLine(mid, "PrivateKey", key);
    assert lines[1..] == [Setting("PrivateKey", key)] && lines[1..][1..] == [];
    RunTwo(st, mid, lines);
  }

  lemma PrivateKeyIsPlain()
    ensures PlainValue("PrivateKey") && '=' !in "PrivateKey" && ToLower("PrivateKey") == "privatekey"
  {
  }

  lemma RunTwo(a: ParserState, b: ParserState, lines: seq<string>)
    requires |lines| == 2 && Step(a, lines[0]) == Ok(b)
    ensures Run(a, lines) == Step(b, lines[1])
  {
    hide Step;
    assert lines[1..] == [lines[1]];
    RunOne(b, lines[1]);
  }

  /**
   * The text's interface has the key; when the last peer is removed, the key in force before is back. So that removal
   * is right exactly if the two are the same.
   */
  ghost predicate LosesLate(cfg: Config, text: string, key: string) {
    var last := |cfg.peers| - 1;
    && Parse(text) == Ok(Config(cfg.iface.(privateKey := key), cfg.peers))
    && last >= 0
    && WithoutBlock(text, last).Some?
    && Parse(WithoutBlock(text, last).value) == Ok(Config(cfg.iface, DropAt(cfg.peers, last)))
    && (Parse(WithoutBlock(text, last).value) ==
        Ok(Config(Parse(text).value.iface, DropAt(Parse(text).value.peers, last))) <==>
        key == cfg.iface.privateKey)
  }

  /** An interface section after the peers belongs to the last block: removing that peer takes the setting along. */
  lemma LateInterfaceLost(content: string, key: string)
    requires WF(content) && Parse(content).Ok? && Parse(content).value.peers != [] && PlainValue(key)
    ensures LosesLate(Parse(content).value, LateKey(content, key), key)
  {
    hide WF, PlainValue, Parse, Tailed, WithoutBlock, Names, Row, NameOf, IsPeerBlock, BlocksOf, IsPeerMark, Setting,
         StripLine, HeaderName;
    LateParse(content, key);
    InterfaceHeaderLine();
    PlainIsClean(key);
    SettingIsClean("PrivateKey", key);
    LateKeyRun(START, key);
    TailedBlocks(content, "[Interface]", Setting("PrivateKey", key));
    ReadersPair(content);
    RemovalCommutes(content, |Parse(content).value.peers| - 1);
  }

  lemma LateParse(content: string, key: string)
    requires PlainValue(key) && Parse(content).Ok?
    ensures Parse(LateKey(content, key)) ==
            Ok(Config(Parse(content).value.iface.(privateKey := key), Parse(content).value.peers))
  {
    hide Step, Split, PlainValue, Setting, Parse, Tailed, IsPeerMark;
    var lines := Split(content, '\n');
    PlainIsClean(key);
    SettingIsClean("PrivateKey", key);
    TailedLines(content, "[Interface]", Setting("PrivateKey", key));
    ParseSplit(content);
    ParseSplit(LateKey(content, key));
    RunConcat(START, lines, ["[Interface]", Setting("PrivateKey", key)]);
    LateKeyRun(Run(START, lines).value, key);
  }
}
