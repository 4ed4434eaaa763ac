/** How the three readers of `wg0.conf` and its two editors (append, cut out a block) fit together. */
module ConfFile {
  import opened Wrappers
  import opened Text
  import opened Cutting
  import opened WgConfig
  import opened Sections
  import opened ConfSettings
  import Decimal

  // ---- the scanner's lines and the splitter's lines parse alike ----

  lemma StripDropReturn(line: string)
    ensures StripLine(DropReturn(line)) == StripLine(line)
  {
    if HasSuffix(line, "\r") {
      var l := line[..|line| - 1];
      assert line == l + "\r" && line[|line| - 1] == '\r';
      if '#' in l {
        var at := IndexOf(l, '#');
        assert line == l[..at] + ['#'] + (l[at + 1..] + "\r");
        IndexOfAt(l[..at], '#', l[at + 1..] + "\r");
        assert line[..at] == l[..at];
      } else {
        assert '#' !in line;
        assert TrimRight(line) == TrimRight(l);
      }
    }
  }

  lemma StepDropReturn(st: ParserState, line: string)
    ensures Step(st, DropReturn(line)) == Step(st, line)
  {
    hide StripLine, HeaderName, EnterSection, Assign, DropReturn, IndexOf, TrimSpace;
    StripDropReturn(line);
  }

  lemma {:induction false} RunDropReturns(st: ParserState, lines: seq<string>)
    ensures Run(st, DropReturns(lines)) == Run(st, lines)
    decreases |lines|
  {
    hide Step, DropReturn;
    if lines != [] {
      StepDropReturn(st, lines[0]);
      assert DropReturns(lines)[1..] == DropReturns(lines[1..]);
      if Step(st, lines[0]).Ok? {
        RunDropReturns(Step(st, lines[0]).value, lines[1..]);
      }
    }
  }

  function Continue(r: Result<ParserState, ParseError>, lines: seq<string>): Result<ParserState, ParseError> {
    if r.Err? then r else Run(r.value, lines)
  }

  lemma {:induction false} RunConcat(st: ParserState, a: seq<string>, b: seq<string>)
    ensures Run(st, a + b) == Continue(Run(st, a), b)
    decreases |a|
  {
    hide Step;
    if a == [] {
      assert a + b == b;
    } else {
      assert (a + b)[1..] == a[1..] + b;
      if Step(st, a[0]).Ok? {
        RunConcat(Step(st, a[0]).value, a[1..], b);
      }
    }
  }

  lemma BlankLine(st: ParserState)
    ensures Step(st, "") == Ok(st) && StripLine("") == ""
    ensures !IsPeerMark("") && !IsPeerHeader("") && !IsInterfaceHeader("")
  {
  }

  lemma RunBlankTail(st: ParserState, lines: seq<string>)
    ensures Run(st, lines + [""]) == Run(st, lines)
  {
    hide Step;
    RunConcat(st, lines, [""]);
    if Run(st, lines).Ok? {
      BlankLine(Run(st, lines).value);
      assert [""][1..] == [];
    }
  }

  function ParseLines(lines: seq<string>): Result<Config, ParseError> {
    match Run(START, lines)
    case Err(e) => Err(e)
    case Ok(st) => Ok(Config(st.iface, st.Peers()))
  }

  /** The text and its `strings.Split` lines denote the same configuration. */
  lemma ParseSplit(text: string)
    ensures Parse(text) == ParseLines(Split(text, '\n'))
  {
    hide Step, Split, DropReturns;
    var lines := Split(text, '\n');
    var n := |lines| - 1;
    if lines[n] == "" {
      RunDropReturns(START, lines[..n]);
      RunBlankTail(START, lines[..n]);
      assert lines == lines[..n] + [""];
    } else {
      RunDropReturns(START, lines);
    }
  }

  // ---- a peer block adds its own peer to whatever came before ----

  predicate PlainLine(line: string) {
    !IsPeerMark(line) && !IsPeerHeader(line) && !IsInterfaceHeader(line)
  }

  predicate IsPeerBlock(block: seq<string>) {
    && block != []
    && IsPeerMark(block[0])
    && IsPeerHeader(block[0])
    && forall j :: 1 <= j < |block| ==> PlainLine(block[j])
  }

  /** A peer is pending exactly inside a peer section. */
  predicate Placed(st: ParserState) {
    st.pending.Some? <==> st.section == InPeer
  }

  /** The same parser position after another interface and other peers. */
  function Rebase(st: ParserState, iface: InterfaceConfig, before: seq<PeerConfig>): (r: ParserState)
    ensures r.Peers() == before + st.Peers()
  {
    st.(iface := iface, committed := before + st.committed)
  }

  function RebaseResult(r: Result<ParserState, ParseError>, iface: InterfaceConfig, before: seq<PeerConfig>)
    : Result<ParserState, ParseError>
  {
    if r.Err? then r else Ok(Rebase(r.value, iface, before))
  }

  lemma RebaseStep(st: ParserState, raw: string, iface: InterfaceConfig, before: seq<PeerConfig>)
    requires Placed(st) && !IsPeerHeader(raw)
    ensures Step(Rebase(st, iface, before), raw) ==
            RebaseResult(Step(st, raw), Patched(iface, LinePatch(InInterfaceSection(st), raw)), before)
  {
    hide StripLine, HeaderName, IndexOf, TrimSpace, Decimal.Atoi, ToLower, SetPeer;
    assert before + st.Peers() == before + st.committed + st.Peers()[|st.committed|..];
  }

  lemma RebaseHeader(st: ParserState, raw: string, iface: InterfaceConfig, before: seq<PeerConfig>)
    requires IsPeerHeader(raw)
    ensures Step(Rebase(st, iface, before), raw) ==
            if |before| + |st.Peers()| >= MAX_WG_PEERS then Err(TooManyPeers)
            else Ok(Rebase(ParserState(InPeer, Some(EMPTY_PEER), st.iface, st.Peers()), iface, before))
    ensures Step(st, raw) ==
            if |st.Peers()| >= MAX_WG_PEERS then Err(TooManyPeers)
            else Ok(ParserState(InPeer, Some(EMPTY_PEER), st.iface, st.Peers()))
    ensures forall inside :: LinePatch(inside, raw) == NO_PATCH
  {
    hide StripLine, HeaderName;
  }

  /**
   * On any lines the parser acts independently of the interface settings and of the peers in front of them: it fails
   * in the same places, but for the limit, and finds the same peers and settings.
   */
  lemma {:induction false} RebaseRun(
    st: ParserState, lines: seq<string>, iface: InterfaceConfig, before: seq<PeerConfig>)
    requires Consistent(st) && |before| + |st.Peers()| <= MAX_WG_PEERS
    ensures Run(Rebase(st, iface, before), lines).Ok? <==>
            Run(st, lines).Ok? && |before| + |Run(st, lines).value.Peers()| <= MAX_WG_PEERS
    ensures Run(Rebase(st, iface, before), lines).Ok? ==>
              Run(Rebase(st, iface, before), lines).value ==
              Rebase(Run(st, lines).value, Patched(iface, LinesPatch(InInterfaceSection(st), lines)), before)
    decreases |lines|
  {
    hide Step, IsHeader, Patched, LinePatch, InsideAfter, Then, Rebase;
    if lines == [] {
      NothingPatched(iface);
    } else {
      var raw, rest := lines[0], lines[1..];
      var made := LinePatch(InInterfaceSection(st), raw);
      RebasedLine(st, raw, iface, before);
      if Step(st, raw).Ok? {
        var next := Step(st, raw).value;
        StepInvariant(st, raw);
        StepPatches(st, raw);
        if |before| + |next.Peers()| <= MAX_WG_PEERS {
          RebaseRun(next, rest, Patched(iface, made), before);
          PatchTwice(iface, made, LinesPatch(InInterfaceSection(next), rest));
        } else if Run(next, rest).Ok? {
          RunInvariant(next, rest);
        }
      }
    }
  }

  lemma RebasedLine(st: ParserState, raw: string, iface: InterfaceConfig, before: seq<PeerConfig>)
    requires Consistent(st) && |before| + |st.Peers()| <= MAX_WG_PEERS
    ensures Step(Rebase(st, iface, before), raw).Ok? <==>
            Step(st, raw).Ok? && |before| + |Step(st, raw).value.Peers()| <= MAX_WG_PEERS
    ensures Step(Rebase(st, iface, before), raw).Ok? ==>
              Step(Rebase(st, iface, before), raw).value ==
              Rebase(Step(st, raw).value, Patched(iface, LinePatch(InInterfaceSection(st), raw)), before)
  {
    hide Step, IsHeader, LinePatch, Patched;
    if IsPeerHeader(raw) {
      RebaseHeader(st, raw, iface, before);
      NothingPatched(iface);
    } else {
      RebaseStep(st, raw, iface, before);
      if Step(st, raw).Ok? {
        StepInvariant(st, raw);
      }
    }
  }

  const PEER_START := ParserState(InPeer, Some(EMPTY_PEER), EMPTY_INTERFACE, [])

  /** The block read on its own, after its header. */
  function BlockRun(block: seq<string>): Result<ParserState, ParseError> {
    if block == [] then Ok(PEER_START) else Run(PEER_START, block[1..])
  }

  /** The peer a block describes. */
  function BlockPeer(block: seq<string>): PeerConfig {
    if BlockRun(block).Ok? && |BlockRun(block).value.Peers()| == 1 then BlockRun(block).value.Peers()[0]
    else EMPTY_PEER
  }

  lemma HeaderStep(st: ParserState, raw: string)
    requires IsPeerHeader(raw)
    ensures Step(st, raw) ==
            if |st.Peers()| >= MAX_WG_PEERS then Err(TooManyPeers)
            else Ok(Rebase(PEER_START, st.iface, st.Peers()))
  {
    hide StripLine, HeaderName;
    assert st.Peers() + [] == st.Peers();
  }

  lemma {:induction false} NoHeaders(lines: seq<string>)
    requires forall i :: 0 <= i < |lines| ==> !IsPeerHeader(lines[i])
    ensures CountPeerHeaders(lines) == 0
  {
    hide IsHeader;
    if lines != [] {
      NoHeaders(lines[1..]);
    }
  }

  /** A run of lines that starts with its only peer header. */
  predicate IsSection(block: seq<string>) {
    block != [] && IsPeerHeader(block[0]) && forall j :: 1 <= j < |block| ==> !IsPeerHeader(block[j])
  }

  /** A section appends its own peer, and patches the interface by what it sets. */
  lemma RunSection(st: ParserState, block: seq<string>)
    requires Consistent(st) && IsSection(block)
    ensures Run(st, block).Ok? <==> |st.Peers()| < MAX_WG_PEERS && BlockRun(block).Ok?
    ensures Run(st, block).Ok? ==>
              var end := Run(st, block).value;
              Consistent(end) && end.iface == Patched(st.iface, SettingsIn(block)) &&
              end.Peers() == st.Peers() + [BlockPeer(block)]
  {
    hide Step, IsHeader, Patched, LinesPatch;
    HeaderStep(st, block[0]);
    HeaderClosesSection(InInterfaceSection(st), block);
    NoHeaders(block[1..]);
    if BlockRun(block).Ok? {
      RunInvariant(PEER_START, block[1..]);
    }
    if |st.Peers()| < MAX_WG_PEERS {
      RebaseRun(PEER_START, block[1..], st.iface, st.Peers());
    }
    if Run(st, block).Ok? {
      RunInvariant(st, block);
    }
  }

  lemma RunBlock(st: ParserState, block: seq<string>)
    requires Consistent(st) && IsPeerBlock(block)
    ensures Run(st, block).Ok? <==> |st.Peers()| < MAX_WG_PEERS && BlockRun(block).Ok?
    ensures Run(st, block).Ok? ==>
              var end := Run(st, block).value;
              Consistent(end) && end.iface == st.iface && end.Peers() == st.Peers() + [BlockPeer(block)]
  {
    hide IsHeader, IsPeerMark, Run, BlockRun, BlockPeer, LinesPatch;
    RunSection(st, block);
    HeaderClosesSection(false, block);
    NoSettings(block[1..]);
    NothingPatched(st.iface);
  }

  predicate PeerBlocks(blocks: seq<seq<string>>) {
    forall i :: 0 <= i < |blocks| ==> IsPeerBlock(blocks[i])
  }

  predicate AllRun(blocks: seq<seq<string>>) {
    forall i :: 0 <= i < |blocks| ==> BlockRun(blocks[i]).Ok?
  }

  function BlockPeersOf(blocks: seq<seq<string>>): (r: seq<PeerConfig>)
    ensures |r| == |blocks|
    ensures forall i :: 0 <= i < |r| ==> r[i] == BlockPeer(blocks[i])
  {
    seq(|blocks|, i requires 0 <= i < |blocks| => BlockPeer(blocks[i]))
  }

  /** A run of peer blocks appends their peers, one each and in order, and leaves the interface alone. */
  lemma {:induction false} RunBlocks(st: ParserState, blocks: seq<seq<string>>)
    requires Consistent(st) && PeerBlocks(blocks)
    ensures Run(st, Flatten(blocks)).Ok? <==> |st.Peers()| + |blocks| <= MAX_WG_PEERS && AllRun(blocks)
    ensures Run(st, Flatten(blocks)).Ok? ==>
              var end := Run(st, Flatten(blocks)).value;
              end.iface == st.iface && end.Peers() == st.Peers() + BlockPeersOf(blocks)
    decreases |blocks|
  {
    hide IsPeerBlock, BlockRun, BlockPeer, Step, AllRun, BlockPeersOf, PeerBlocks;
    Cons(blocks);
    if blocks != [] {
      var head, rest := blocks[0], blocks[1..];
      RunConcat(st, head, Flatten(rest));
      RunBlock(st, head);
      if Run(st, head).Ok? {
        var mid := Run(st, head).value;
        RunBlocks(mid, rest);
        assert mid.Peers() + BlockPeersOf(rest) == st.Peers() + ([BlockPeer(head)] + BlockPeersOf(rest));
      }
    }
  }

  lemma Cons(blocks: seq<seq<string>>)
    requires PeerBlocks(blocks)
    ensures blocks == [] ==> AllRun(blocks) && BlockPeersOf(blocks) == []
    ensures blocks != [] ==> IsPeerBlock(blocks[0]) && PeerBlocks(blocks[1..])
    ensures blocks != [] ==> (AllRun(blocks) <==> BlockRun(blocks[0]).Ok? && AllRun(blocks[1..]))
    ensures blocks != [] ==> BlockPeersOf(blocks) == [BlockPeer(blocks[0])] + BlockPeersOf(blocks[1..])
  {
    hide IsPeerBlock, BlockRun, BlockPeer;
    if blocks != [] {
      assert blocks == [blocks[0]] + blocks[1..];
    }
  }
}
