/** Exactly when `Remove` of every peer takes out that peer and nothing else, on any text that parses. */
module ConfExact {
  import opened Wrappers
  import opened Text
  import opened Cutting
  import opened WgConfig
  import opened Sections
  import opened ConfSettings
  import opened ConfFile
  import opened ConfEdits
  import opened ConfAppend
  import opened ConfLimits

  /** `Remove` of every listed peer takes out that peer and nothing else. */
  ghost predicate RemovesExactly(content: string)
    requires Parse(content).Ok?
  {
    forall i: nat :: i < |Parse(content).value.peers| ==>
      WithoutBlock(content, i).Some? &&
      Parse(WithoutBlock(content, i).value) ==
      Ok(Config(Parse(content).value.iface, DropAt(Parse(content).value.peers, i)))
  }

  // ---- lines in front of the next header ----

  /** The lines in front of the first header the parser accepts: they belong to the section before. */
  function Lead(lines: seq<string>): seq<string> {
    if lines == [] || IsPeerHeader(lines[0]) then [] else [lines[0]] + Lead(lines[1..])
  }

  /** The lines from that header on. */
  function FromHeader(lines: seq<string>): seq<string> {
    if lines == [] || IsPeerHeader(lines[0]) then lines else FromHeader(lines[1..])
  }

  lemma {:induction false} LeadCovers(lines: seq<string>)
    ensures lines == Lead(lines) + FromHeader(lines)
    ensures forall k :: 0 <= k < |Lead(lines)| ==> !IsPeerHeader(Lead(lines)[k])
    ensures FromHeader(lines) == [] || IsPeerHeader(FromHeader(lines)[0])
  {
    hide IsHeader;
    if lines != [] && !IsPeerHeader(lines[0]) {
      LeadCovers(lines[1..]);
      assert lines == [lines[0]] + (Lead(lines[1..]) + FromHeader(lines[1..]));
    }
  }

  lemma LeadSplits(lines: seq<string>)
    ensures lines == Lead(lines) + FromHeader(lines)
    ensures CountPeerHeaders(FromHeader(lines)) == CountPeerHeaders(lines)
    ensures forall k :: 0 <= k < |Lead(lines)| ==> !IsPeerHeader(Lead(lines)[k])
    ensures FromHeader(lines) == [] || IsPeerHeader(FromHeader(lines)[0])
  {
    hide IsHeader, CountPeerHeaders, Lead, FromHeader;
    LeadCovers(lines);
    NoHeaders(Lead(lines));
    CountConcat(Lead(lines), FromHeader(lines));
  }

  // ---- the same lines behind two states ----

  /** The peers that lines add which start with a header. */
  function Added(rest: seq<string>): seq<PeerConfig> {
    if rest == [] || Run(PEER_START, rest[1..]).Err? then [] else Run(PEER_START, rest[1..]).value.Peers()
  }

  lemma RunFromHeader(st: ParserState, rest: seq<string>)
    requires Consistent(st) && (rest == [] || IsPeerHeader(rest[0]))
    ensures Run(st, rest).Ok? <==>
            rest == [] || (Run(PEER_START, rest[1..]).Ok? && |st.Peers()| + |Added(rest)| <= MAX_WG_PEERS)
    ensures Run(st, rest).Ok? ==>
              Run(st, rest).value.Peers() == st.Peers() + Added(rest) &&
              Run(st, rest).value.iface == Patched(st.iface, SettingsIn(rest))
  {
    hide Step, IsHeader, Patched, LinesPatch;
    if rest == [] {
      SettingsOfNothing(st.iface);
    } else {
      HeaderStep(st, rest[0]);
      HeaderClosesSection(false, rest);
      if Run(PEER_START, rest[1..]).Ok? {
        RunInvariant(PEER_START, rest[1..]);
      }
      if |st.Peers()| < MAX_WG_PEERS {
        RebaseRun(PEER_START, rest[1..], st.iface, st.Peers());
      }
    }
  }

  lemma SettingsOfNothing(iface: InterfaceConfig)
    ensures Patched(iface, SettingsIn([])) == iface
  {
  }

  // ---- one cut ----

  /** The parts of a text around one removed section, which holds one header: `front + (lead + own) + (next + rest)`. */
  datatype Parts = Parts(front: seq<string>, lead: seq<string>, own: seq<string>, next: seq<string>, rest: seq<string>)

  ghost predicate WellParted(p: Parts) {
    && (forall k :: 0 <= k < |p.lead| ==> !IsPeerHeader(p.lead[k]))
    && (forall k :: 0 <= k < |p.next| ==> !IsPeerHeader(p.next[k]))
    && IsSection(p.own)
    && (p.rest == [] || IsPeerHeader(p.rest[0]))
  }

  function Whole(p: Parts): seq<string> {
    p.front + (p.lead + (p.own + (p.next + p.rest)))
  }

  function Cutout(p: Parts): seq<string> {
    p.front + (p.next + p.rest)
  }

  function After(st: ParserState, lines: seq<string>): ParserState {
    if Run(st, lines).Ok? then Run(st, lines).value else st
  }

  /** The state in front of the removed section. */
  function Before(p: Parts): ParserState {
    After(START, p.front)
  }

  /**
   * The lines in front of the section's header say the same to the peer before as the lines in front of the next
   * header; and whatever interface settings go are made again later or were in force anyway.
   */
  predicate CutIsRight(p: Parts) {
    var was, now := Run(Before(p), p.lead), Run(Before(p), p.next);
    && was.Ok?
    && now.Ok?
    && now.value.Peers() == was.value.Peers()
    && AgreeUnder(now.value.iface, Patched(was.value.iface, SettingsIn(p.own + p.next)), SettingsIn(p.rest))
  }

  /** The two interfaces differ at most in settings that are made again later. */
  predicate AgreeUnder(a: InterfaceConfig, b: InterfaceConfig, later: Patch) {
    && (later.privateKey.None? ==> a.privateKey == b.privateKey)
    && (later.address.None? ==> a.address == b.address)
    && (later.listenPort.None? ==> a.listenPort == b.listenPort)
  }

  lemma AgreeExact(a: InterfaceConfig, b: InterfaceConfig, later: Patch)
    ensures Patched(a, later) == Patched(b, later) <==> AgreeUnder(a, b, later)
  {
  }

  lemma SectionWithNext(own: seq<string>, next: seq<string>)
    requires IsSection(own) && forall k :: 0 <= k < |next| ==> !IsPeerHeader(next[k])
    ensures IsSection(own + next)
  {
    hide IsHeader;
  }

  lemma HeaderFreeRun(st: ParserState, lines: seq<string>)
    requires Consistent(st) && Run(st, lines).Ok?
    requires forall k :: 0 <= k < |lines| ==> !IsPeerHeader(lines[k])
    ensures Consistent(Run(st, lines).value) && |Run(st, lines).value.Peers()| == |st.Peers()|
  {
    hide Step, IsHeader;
    NoHeaders(lines);
    RunInvariant(st, lines);
  }

  /** The text as a whole: what is in front, the removed peer, and what is behind. */
  lemma WholeRun(p: Parts)
    requires WellParted(p) && Run(START, Whole(p)).Ok?
    ensures Run(START, p.front).Ok? && Consistent(Before(p)) && Run(Before(p), p.lead).Ok?
    ensures var was, end := Run(Before(p), p.lead).value, Run(START, Whole(p)).value;
            |was.Peers()| == |Before(p).Peers()| &&
            end.Peers() == was.Peers() + [BlockPeer(p.own + p.next)] + Added(p.rest) &&
            |end.Peers()| <= MAX_WG_PEERS &&
            (p.rest != [] ==> Run(PEER_START, p.rest[1..]).Ok?) &&
            end.iface == Patched(Patched(was.iface, SettingsIn(p.own + p.next)), SettingsIn(p.rest))
  {
    hide Step, IsHeader, Patched, LinesPatch, BlockPeer, BlockRun, Added, IsSection, Run;
    RunConcat(START, p.front, p.lead + (p.own + (p.next + p.rest)));
    EmptyStart();
    RunInvariant(START, p.front);
    RunInvariant(START, Whole(p));
    RunConcat(Before(p), p.lead, p.own + (p.next + p.rest));
    HeaderFreeRun(Before(p), p.lead);
    var was := Run(Before(p), p.lead).value;
    assert p.own + (p.next + p.rest) == p.own + p.next + p.rest;
    RunConcat(was, p.own + p.next, p.rest);
    SectionWithNext(p.own, p.next);
    RunSection(was, p.own + p.next);
    var mid := Run(was, p.own + p.next).value;
    RunFromHeader(mid, p.rest);
  }

  lemma EmptyStart()
    ensures Consistent(START) && START.Peers() == [] && START.iface == EMPTY_INTERFACE && !InInterfaceSection(START)
  {
  }

  /** The text without the section. */
  lemma CutoutRun(p: Parts)
    requires WellParted(p) && Run(START, p.front).Ok? && Consistent(Before(p))
    requires p.rest != [] ==> Run(PEER_START, p.rest[1..]).Ok?
    requires |Before(p).Peers()| + |Added(p.rest)| <= MAX_WG_PEERS
    ensures Run(START, Cutout(p)).Ok? <==> Run(Before(p), p.next).Ok?
    ensures Run(START, Cutout(p)).Ok? ==>
              var now, end := Run(Before(p), p.next).value, Run(START, Cutout(p)).value;
              |now.Peers()| == |Before(p).Peers()| && end.Peers() == now.Peers() + Added(p.rest) &&
              end.iface == Patched(now.iface, SettingsIn(p.rest))
  {
    hide Step, IsHeader, Patched, LinesPatch, Added, IsSection, Run;
    RunConcat(START, p.front, p.next + p.rest);
    RunConcat(Before(p), p.next, p.rest);
    if Run(Before(p), p.next).Ok? {
      HeaderFreeRun(Before(p), p.next);
      RunFromHeader(Run(Before(p), p.next).value, p.rest);
    }
  }

  /** A cut takes out the section's peer and nothing else exactly if it is right in this sense. */
  lemma CutExact(p: Parts)
    requires WellParted(p) && ParseLines(Whole(p)).Ok?
    ensures var cfg, i := ParseLines(Whole(p)).value, |Before(p).Peers()|;
            i < |cfg.peers| &&
            (ParseLines(Cutout(p)) == Ok(Config(cfg.iface, DropAt(cfg.peers, i))) <==> CutIsRight(p))
  {
    hide Run, Patched, LinesPatch, BlockPeer, BlockRun, Added, IsSection, Whole, Cutout, Before, AgreeUnder, IsHeader;
    WholeRun(p);
    CutoutRun(p);
    var was := Run(Before(p), p.lead).value;
    DroppedMiddle(was.Peers(), BlockPeer(p.own + p.next), Added(p.rest));
    if Run(Before(p), p.next).Ok? {
      var now := Run(Before(p), p.next).value;
      AgreeExact(now.iface, Patched(was.iface, SettingsIn(p.own + p.next)), SettingsIn(p.rest));
      SameFront(now.Peers(), was.Peers(), Added(p.rest));
    }
  }

  lemma DroppedMiddle<T>(a: seq<T>, x: T, b: seq<T>)
    ensures DropAt(a + [x] + b, |a|) == a + b
  {
  }

  lemma SameFront<T>(a: seq<T>, b: seq<T>, c: seq<T>)
    requires |a| == |b|
    ensures a + c == b + c <==> a == b
  {
    if a + c == b + c {
      assert a == (a + c)[..|a|] && b == (b + c)[..|b|];
    }
  }

  // ---- every cut of a text ----

  /** The parts of a text around its j-th section. */
  function PartsAt(blocks: seq<seq<string>>, j: nat): Parts
    requires j < |blocks|
  {
    var back := Flatten(blocks[j + 1..]);
    Parts(Flatten(blocks[..j]), Lead(blocks[j]), FromHeader(blocks[j]), Lead(back), FromHeader(back))
  }

  /** Each of the first n sections behind the first one holds exactly one header the parser accepts. */
  predicate OneHeaderEach(blocks: seq<seq<string>>, n: nat) {
    n < |blocks| && forall j {:trigger blocks[j]} :: 1 <= j <= n ==> CountPeerHeaders(blocks[j]) == 1
  }

  lemma FlattenAround(blocks: seq<seq<string>>, j: nat)
    requires j < |blocks|
    ensures Flatten(blocks) == Flatten(blocks[..j]) + (blocks[j] + Flatten(blocks[j + 1..]))
    ensures Flatten(DropAt(blocks, j)) == Flatten(blocks[..j]) + Flatten(blocks[j + 1..])
  {
    hide Flatten;
    var front, block, back := blocks[..j], blocks[j], blocks[j + 1..];
    assert blocks == front + ([block] + back);
    FlattenConcat(front, [block] + back);
    FlattenCons(block, back);
    FlattenConcat(front, back);
  }

  lemma PartsWell(blocks: seq<seq<string>>, j: nat)
    requires j < |blocks| && CountPeerHeaders(blocks[j]) == 1
    ensures WellParted(PartsAt(blocks, j))
  {
    hide Flatten, Lead, FromHeader, CountPeerHeaders, IsHeader, IsSection;
    LeadSplits(blocks[j]);
    LeadSplits(Flatten(blocks[j + 1..]));
    SectionOfOne(FromHeader(blocks[j]));
  }

  lemma PartsCover(blocks: seq<seq<string>>, j: nat)
    requires j < |blocks| && CountPeerHeaders(blocks[j]) == 1
    ensures WellParted(PartsAt(blocks, j))
    ensures Whole(PartsAt(blocks, j)) == Flatten(blocks) && Cutout(PartsAt(blocks, j)) == Flatten(DropAt(blocks, j))
  {
    hide Flatten, Lead, FromHeader, CountPeerHeaders, IsHeader, WellParted;
    var block, back := blocks[j], Flatten(blocks[j + 1..]);
    PartsWell(blocks, j);
    LeadCovers(block);
    LeadCovers(back);
    FlattenAround(blocks, j);
    Associate(Lead(block), FromHeader(block), back);
  }

  lemma SectionOfOne(lines: seq<string>)
    requires CountPeerHeaders(lines) == 1 && (lines == [] || IsPeerHeader(lines[0]))
    ensures IsSection(lines)
  {
    hide IsHeader;
    NoneCounted(lines[1..]);
  }

  lemma {:induction false} NoneCounted(lines: seq<string>)
    requires CountPeerHeaders(lines) == 0
    ensures forall k :: 0 <= k < |lines| ==> !IsPeerHeader(lines[k])
  {
    hide IsHeader;
    if lines != [] {
      NoneCounted(lines[1..]);
    }
  }

  lemma CountOfParse(content: string)
    requires Parse(content).Ok?
    ensures |Parse(content).value.peers| == CountPeerHeaders(Split(content, '\n'))
  {
    hide Step, IsHeader, Split, Parse;
    ParseSplit(content);
    EmptyStart();
    RunInvariant(START, Split(content, '\n'));
  }

  lemma {:induction false} CountOfSections(blocks: seq<seq<string>>, n: nat, j: nat)
    requires OneHeaderEach(blocks, n) && CountPeerHeaders(blocks[0]) == 0 && 1 <= j <= n + 1
    ensures j <= |blocks| && CountPeerHeaders(Flatten(blocks[..j])) == j - 1
    decreases j
  {
    hide CountPeerHeaders, Flatten;
    var front := blocks[..j - 1];
    assert blocks[..j] == front + [blocks[j - 1]];
    FlattenConcat(front, [blocks[j - 1]]);
    FlattenOne(blocks[j - 1]);
    CountConcat(Flatten(front), blocks[j - 1]);
    if j > 1 {
      CountOfSections(blocks, n, j - 1);
    } else {
      assert front == [];
      FlattenNil<string>();
      NoHeaders([]);
    }
  }

  /** The headers of a parsed text are all in the sections counted, so there is none in front of them. */
  lemma HeadHasNone(content: string)
    requires Parse(content).Ok? && OneHeaderEach(BlocksOf(content), |Parse(content).value.peers|)
    ensures CountPeerHeaders(BlocksOf(content)[0]) == 0
  {
    hide CountPeerHeaders, Flatten, BlocksOf, Parse, Split;
    var blocks, n := BlocksOf(content), |Parse(content).value.peers|;
    BlocksCover(content);
    CountOfParse(content);
    CountAtLeast(blocks, n);
  }

  lemma {:induction false} CountAtLeast(blocks: seq<seq<string>>, n: nat)
    requires OneHeaderEach(blocks, n)
    ensures CountPeerHeaders(Flatten(blocks)) >= CountPeerHeaders(blocks[0]) + n
    decreases n
  {
    hide CountPeerHeaders, Flatten;
    if n == 0 {
      assert blocks == [blocks[0]] + blocks[1..];
      FlattenCons(blocks[0], blocks[1..]);
      CountConcat(blocks[0], Flatten(blocks[1..]));
    } else {
      var left := DropAt(blocks, n);
      assert forall j :: 0 <= j < n ==> left[j] == blocks[j];
      CountAtLeast(left, n - 1);
      CountDropped(blocks, n);
    }
  }

  lemma RemovalOfSection(content: string, i: nat)
    requires Parse(content).Ok? && OneHeaderEach(BlocksOf(content), |Parse(content).value.peers|)
    requires i < |Parse(content).value.peers|
    ensures WithoutBlock(content, i).Some?
    ensures Parse(WithoutBlock(content, i).value) ==
            Ok(Config(Parse(content).value.iface, DropAt(Parse(content).value.peers, i))) <==>
            CutIsRight(PartsAt(BlocksOf(content), i + 1))
  {
    hide CountPeerHeaders, Flatten, BlocksOf, Parse, Split, ParseLines, CutIsRight, PartsAt, Texts, Concat, CleanBlocks,
         WellParted;
    var blocks, n := BlocksOf(content), |Parse(content).value.peers|;
    var p := PartsAt(blocks, i + 1);
    BlocksCover(content);
    ParseSplit(content);
    PartsCover(blocks, i + 1);
    HeadHasNone(content);
    CountOfSections(blocks, n, i + 1);
    CutExact(p);
    PeersBefore(blocks, i + 1);
    BlocksOfAreClean(content);
    DroppedClean(blocks, i + 1);
    JoinedParse(DropAt(blocks, i + 1));
  }

  lemma PeersBefore(blocks: seq<seq<string>>, j: nat)
    requires j < |blocks| && CountPeerHeaders(blocks[j]) == 1 && ParseLines(Flatten(blocks)).Ok?
    ensures |Before(PartsAt(blocks, j)).Peers()| == CountPeerHeaders(Flatten(blocks[..j]))
  {
    hide CountPeerHeaders, Flatten, Run, Lead, FromHeader, WellParted, Whole;
    PartsCover(blocks, j);
    WholeRun(PartsAt(blocks, j));
    EmptyStart();
    RunInvariant(START, Flatten(blocks[..j]));
  }

  predicate CutsAreRight(blocks: seq<seq<string>>, n: nat) {
    forall j :: 1 <= j <= n && j < |blocks| ==> CutIsRight(PartsAt(blocks, j))
  }

  /**
   * On any text that parses: removal of every peer is right if and only if each section it can name holds exactly one
   * header the parser accepts, and each cut is right for the lines around it.
   */
  lemma RemovalExactAnywhere(content: string)
    requires Parse(content).Ok?
    ensures var blocks, n := BlocksOf(content), |Parse(content).value.peers|;
            RemovesExactly(content) <==> OneHeaderEach(blocks, n) && CutsAreRight(blocks, n)
  {
    hide Parse, BlocksOf, WithoutBlock, CutIsRight, PartsAt, CountPeerHeaders;
    var blocks, n := BlocksOf(content), |Parse(content).value.peers|;
    if RemovesExactly(content) {
      ExactCounts(content);
      forall j | 1 <= j <= n && j < |blocks| ensures CutIsRight(PartsAt(blocks, j)) {
        RemovalOfSection(content, j - 1);
      }
    }
    if OneHeaderEach(blocks, n) && CutsAreRight(blocks, n) {
      RightCuts(content);
    }
  }

  lemma RightCuts(content: string)
    requires Parse(content).Ok?
    requires OneHeaderEach(BlocksOf(content), |Parse(content).value.peers|)
    requires CutsAreRight(BlocksOf(content), |Parse(content).value.peers|)
    ensures RemovesExactly(content)
  {
    hide Parse, BlocksOf, WithoutBlock, CutIsRight, PartsAt, CountPeerHeaders;
    forall i: nat | i < |Parse(content).value.peers|
      ensures WithoutBlock(content, i).Some? &&
              Parse(WithoutBlock(content, i).value) ==
              Ok(Config(Parse(content).value.iface, DropAt(Parse(content).value.peers, i)))
    {
      RemovalOfSection(content, i);
      assert CountPeerHeaders(BlocksOf(content)[i + 1]) == 1;
    }
  }

  lemma ExactCounts(content: string)
    requires Parse(content).Ok? && RemovesExactly(content)
    ensures OneHeaderEach(BlocksOf(content), |Parse(content).value.peers|)
  {
    hide Parse, BlocksOf, WithoutBlock, CountPeerHeaders, Split;
    var n := |Parse(content).value.peers|;
    CountOfParse(content);
    forall i: nat {:trigger HeadersWithout(content, i)} | i < n ensures HeadersWithout(content, i) == Some(n - 1) {
      CountOfParse(WithoutBlock(content, i).value);
    }
    RemovalCountExact(content);
  }

  // ---- when each section starts with its header ----

  /** The interface as the text up to the j-th section sets it. */
  function InForce(blocks: seq<seq<string>>, j: nat): InterfaceConfig
    requires j <= |blocks|
  {
    Patched(EMPTY_INTERFACE, SettingsIn(Flatten(blocks[..j])))
  }

  /**
   * Every interface setting made in a section behind the first is made again in a later section, or repeats the value
   * in force in front of its section.
   */
  predicate SettingsKept(blocks: seq<seq<string>>) {
    forall j {:trigger blocks[j]} :: 1 <= j < |blocks| ==>
      Kept(InForce(blocks, j), SettingsIn(blocks[j]), SettingsIn(Flatten(blocks[j + 1..])))
  }

  lemma {:induction false} SectionsFlatten(blocks: seq<seq<string>>)
    requires forall i :: 0 <= i < |blocks| ==> IsSection(blocks[i])
    ensures Flatten(blocks) == [] || IsPeerHeader(Flatten(blocks)[0])
    ensures Lead(Flatten(blocks)) == [] && FromHeader(Flatten(blocks)) == Flatten(blocks)
    ensures CountPeerHeaders(Flatten(blocks)) == |blocks|
  {
    hide IsHeader;
    if blocks != [] {
      SectionsFlatten(blocks[1..]);
      SectionCount(blocks[0]);
      CountConcat(blocks[0], Flatten(blocks[1..]));
    }
  }

  lemma SectionCount(block: seq<string>)
    requires IsSection(block)
    ensures CountPeerHeaders(block) == 1 && Lead(block) == [] && FromHeader(block) == block
  {
    hide IsHeader;
    NoHeaders(block[1..]);
  }

  lemma SectionCut(blocks: seq<seq<string>>, j: nat)
    requires EachASection(blocks) && 1 <= j < |blocks| && ParseLines(Flatten(blocks)).Ok?
    ensures CutIsRight(PartsAt(blocks, j)) <==>
            Kept(InForce(blocks, j), SettingsIn(blocks[j]), SettingsIn(Flatten(blocks[j + 1..])))
  {
    hide Flatten, IsSection, Lead, FromHeader, Patched, LinesPatch, CountPeerHeaders, Kept, AgreeUnder, Step, Whole,
         WellParted;
    var back, p := blocks[j + 1..], PartsAt(blocks, j);
    forall i | 0 <= i < |back| ensures IsSection(back[i]) {
      assert back[i] == blocks[i + j + 1];
    }
    SectionsFlatten(back);
    SectionCount(blocks[j]);
    PartsCover(blocks, j);
    WholeRun(p);
    EmptyStart();
    RunPatches(START, p.front);
    assert p.own + p.next == blocks[j];
    var had, made, later := InForce(blocks, j), SettingsIn(blocks[j]), SettingsIn(Flatten(back));
    AgreeExact(had, Patched(had, made), later);
    KeptExact(had, made, later);
  }

  /**
   * Behind any first section, when each other section starts with its only header: removal of every peer is right
   * exactly if the parser finds no peer in the first section and the sections' interface settings are kept.
   */
  lemma HeadExact(content: string)
    requires EachASection(BlocksOf(content)) && Parse(content).Ok?
    ensures RemovesExactly(content) <==>
            CountPeerHeaders(BlocksOf(content)[0]) == 0 && SettingsKept(BlocksOf(content))
  {
    hide Parse, BlocksOf, RemovesExactly, CutIsRight, PartsAt, CountPeerHeaders, IsSection, Kept, InForce, LinesPatch,
         Flatten, Split, ParseLines;
    var blocks, n := BlocksOf(content), |Parse(content).value.peers|;
    BlocksCover(content);
    CountOfParse(content);
    ParseSplit(content);
    HeadAndSections(blocks);
    RemovalExactAnywhere(content);
    if n < |blocks| {
      assert n + 1 == |blocks|;
      forall j | 1 <= j < |blocks|
        ensures CutIsRight(PartsAt(blocks, j)) <==>
                Kept(InForce(blocks, j), SettingsIn(blocks[j]), SettingsIn(Flatten(blocks[j + 1..])))
      {
        SectionCut(blocks, j);
      }
      KeptIsRight(blocks, n);
    }
  }

  lemma KeptIsRight(blocks: seq<seq<string>>, n: nat)
    requires n + 1 == |blocks|
    requires forall j :: 1 <= j < |blocks| ==>
               (CutIsRight(PartsAt(blocks, j)) <==>
                Kept(InForce(blocks, j), SettingsIn(blocks[j]), SettingsIn(Flatten(blocks[j + 1..]))))
    ensures CutsAreRight(blocks, n) <==> SettingsKept(blocks)
  {
    hide CutIsRight, PartsAt, Kept, InForce, LinesPatch, Flatten;
    if CutsAreRight(blocks, n) {
      forall j {:trigger blocks[j]} | 1 <= j < |blocks|
        ensures Kept(InForce(blocks, j), SettingsIn(blocks[j]), SettingsIn(Flatten(blocks[j + 1..])))
      {
        assert CutIsRight(PartsAt(blocks, j));
      }
    }
    if SettingsKept(blocks) {
      forall j | 1 <= j <= n && j < |blocks| ensures CutIsRight(PartsAt(blocks, j)) {
        var block := blocks[j];
      }
    }
  }

  lemma HeadAndSections(blocks: seq<seq<string>>)
    requires blocks != [] && EachASection(blocks)
    ensures CountPeerHeaders(Flatten(blocks)) == CountPeerHeaders(blocks[0]) + |blocks| - 1
    ensures OneHeaderEach(blocks, |blocks| - 1)
  {
    hide CountPeerHeaders, Flatten, IsSection;
    forall j {:trigger blocks[j]} | 1 <= j < |blocks| ensures CountPeerHeaders(blocks[j]) == 1 {
      SectionCount(blocks[j]);
    }
    SectionsFlatten(blocks[1..]);
    assert blocks == [blocks[0]] + blocks[1..];
    FlattenCons(blocks[0], blocks[1..]);
    CountConcat(blocks[0], Flatten(blocks[1..]));
  }

  /**
   * When the readers agree: removal of every peer is right if and only if no header leads the text and every interface
   * setting behind the first section is made again in a later one or repeats the value in force.
   */
  lemma RemovalExact(content: string)
    requires ReadersAgree(Split(content, '\n')) && Parse(content).Ok?
    ensures RemovesExactly(content) <==>
            !IsPeerMark(Split(content, '\n')[0]) && SettingsKept(BlocksOf(content))
  {
    hide Parse, ReadersAgree, IsPeerMark, RemovesExactly, CountPeerHeaders, BlocksOf, SettingsKept, EachASection;
    AgreeingSections(content);
    HeadExact(content);
  }

  // ---- settings in front of a section's own header ----

  /**
   * A peer as `Add` writes it, then a mark the parser rejects, an address, and the section's own header with inner
   * blanks: one header per section, and the address belongs to the peer before.
   */
  function StrayAddress(content: string, name: string, key: string, ip: string, tag: string, cidr: string, key2: string)
    : string
  {
    SpacedPeer(Tailed(Appended(content, name, key, ip), Labelled(tag), Setting("AllowedIPs", cidr)), key2)
  }

  lemma AppendedState(content: string, name: string, key: string, ip: string)
    requires PlainValue(name) && PlainValue(key) && PlainValue(ip)
    requires Parse(content).Ok? && |Parse(content).value.peers| < MAX_WG_PEERS
    ensures Run(START, Split(Appended(content, name, key, ip), '\n')) ==
            Ok(Rebase(PEER_START.(pending := Some(NewPeer(key, ip + "/32"))),
                      Parse(content).value.iface, Parse(content).value.peers))
  {
    hide Step, IsHeader, PlainValue, PeerText, HeaderText, Setting, Split, Run, LinesPatch, IsPeerMark, BlockPeer;
    var lines, block := Split(content, '\n'), PeerLines(name, key, ip + "/32");
    CidrIsPlain(ip);
    ParseSplit(content);
    SplitAppended(content, name, key, ip);
    RunConcat(START, lines, block);
    NewBlock(name, key, ip + "/32");
    NewBlockRun(name, key, ip + "/32");
    EmptyStart();
    RunInvariant(START, lines);
    var st := Run(START, lines).value;
    HeaderStep(st, block[0]);
    RunHead(st, block);
    RebaseRun(PEER_START, block[1..], st.iface, st.Peers());
    NoSettings(block[1..]);
    NothingPatched(st.iface);
  }

  lemma RunHead(st: ParserState, lines: seq<string>)
    requires lines != [] && Step(st, lines[0]).Ok?
    ensures Run(st, lines) == Run(Step(st, lines[0]).value, lines[1..])
  {
    hide Step;
  }

  lemma StrayParse(content: string, name: string, key: string, ip: string, tag: string, cidr: string)
    requires PlainValue(name) && PlainValue(key) && PlainValue(ip) && LegalName(tag) && PlainValue(cidr)
    requires Parse(content).Ok? && |Parse(content).value.peers| < MAX_WG_PEERS
    ensures Parse(Tailed(Appended(content, name, key, ip), Labelled(tag), Setting("AllowedIPs", cidr))) ==
            Ok(Config(Parse(content).value.iface,
                      Parse(content).value.peers + [NewPeer(key, ip + "/32").(allowedIPs := [ip + "/32", cidr])]))
  {
    hide Step, PlainValue, LegalName, Setting, Split, Labelled, Tailed, Appended, Parse, Run, Assign, IsPeerMark,
         IsHeader;
    var base, mark, line := Appended(content, name, key, ip), Labelled(tag), Setting("AllowedIPs", cidr);
    var st := Rebase(PEER_START.(pending := Some(NewPeer(key, ip + "/32"))),
                     Parse(content).value.iface, Parse(content).value.peers);
    AppendedState(content, name, key, ip);
    LabelledHeader(tag, st);
    PlainIsClean(cidr);
    KeywordsArePlain();
    PlainIsClean("AllowedIPs");
    SettingIsClean("AllowedIPs", cidr);
    TailedLines(base, mark, line);
    ParseSplit(Tailed(base, mark, line));
    RunConcat(START, Split(base, '\n'), [mark, line]);
    RunTwo(st, st, [mark, line]);
    SettingLine(st, "AllowedIPs", cidr);
    AssignMore(st, cidr);
    assert st.committed == Parse(content).value.peers;
    assert [ip + "/32"] + [cidr] == [ip + "/32", cidr];
  }

  /** Removing the peer under the spaced header takes the address off the peer before it, too. */
  lemma StrayAddressLost(
    content: string, name: string, key: string, ip: string, tag: string, cidr: string, key2: string)
    requires WF(content) && Parse(content).Ok? && |Parse(content).value.peers| + 2 <= MAX_WG_PEERS
    requires PlainValue(name) && PlainValue(key) && PlainValue(ip)
    requires LegalName(tag) && PlainValue(cidr) && PlainValue(key2)
    ensures var cfg, text := Parse(content).value, StrayAddress(content, name, key, ip, tag, cidr, key2);
            var p, n := NewPeer(key, ip + "/32"), |cfg.peers| + 1;
            Parse(text) ==
            Ok(Config(cfg.iface, cfg.peers + [p.(allowedIPs := [ip + "/32", cidr])]
                                 + [EMPTY_PEER.(publicKey := key2)])) &&
            WithoutBlock(text, n).Some? &&
            Parse(WithoutBlock(text, n).value) == Ok(Config(cfg.iface, cfg.peers + [p]))
  {
    hide WF, Parse, PlainValue, LegalName, Appended, Labelled, Setting, Tailed, SpacedPeer, BlocksOf, Names, Row,
         NameOf, IsPeerBlock, BlockPeer, Texts, Concat;
    var base := Appended(content, name, key, ip);
    var text := StrayAddress(content, name, key, ip, tag, cidr, key2);
    StrayParse(content, name, key, ip, tag, cidr);
    SpacedParse(Tailed(base, Labelled(tag), Setting("AllowedIPs", cidr)), key2);
    AppendBlocks(content, name, key, ip);
    AppendParses(content, name, key, ip);
    ReadersPair(base);
    StrayBlocks(base, tag, cidr, key2);
    var blocks := BlocksOf(base);
    assert DropAt(BlocksOf(text), |blocks|) == blocks;
    BlocksOfAreClean(base);
    JoinedParse(blocks);
    BlocksCover(base);
    ParseSplit(base);
  }

  /** The stray lines and the header behind them are one section. */
  lemma StrayBlocks(base: string, tag: string, cidr: string, key2: string)
    requires LegalName(tag) && PlainValue(cidr) && PlainValue(key2)
    ensures var lines := [Labelled(tag), Setting("AllowedIPs", cidr), "[ Peer ]", Setting("PublicKey", key2)];
            BlocksOf(SpacedPeer(Tailed(base, Labelled(tag), Setting("AllowedIPs", cidr)), key2)) ==
            BlocksOf(base) + [lines]
  {
    hide LegalName, PlainValue, Labelled, Setting, Split, Tailed, Step, IsPeerMark, IsHeader, Assign;
    var mark, line, last := Labelled(tag), Setting("AllowedIPs", cidr), Setting("PublicKey", key2);
    var lines := Split(base, '\n');
    LabelledHeader(tag, START);
    SpacedHeader();
    KeywordsArePlain();
    PlainIsClean("AllowedIPs");
    PlainIsClean("PublicKey");
    PlainIsClean(cidr);
    PlainIsClean(key2);
    SettingIsClean("AllowedIPs", cidr);
    SettingIsClean("PublicKey", key2);
    SettingLine(START, "AllowedIPs", cidr);
    SettingLine(START, "PublicKey", key2);
    TailedLines(base, mark, line);
    TailedLines(Tailed(base, mark, line), "[ Peer ]", last);
    CutConcat(IsPeerMark, lines, [mark]);
    CutSnoc(IsPeerMark, lines + [mark], line);
    CutSnoc(IsPeerMark, lines + [mark] + [line], "[ Peer ]");
    CutSnoc(IsPeerMark, lines + [mark] + [line] + ["[ Peer ]"], last);
    assert lines + [mark] + [line] + ["[ Peer ]"] + [last] == lines + [mark, line] + ["[ Peer ]", last];
    ExtendBehind(Blocks(lines), [mark], line);
    ExtendBehind(Blocks(lines), [mark] + [line], "[ Peer ]");
    ExtendBehind(Blocks(lines), [mark] + [line] + ["[ Peer ]"], last);
    assert [mark] + [line] + ["[ Peer ]"] + [last] == [mark, line, "[ Peer ]", last];
  }

  lemma ExtendBehind<T>(blocks: seq<seq<T>>, block: seq<T>, line: T)
    ensures ExtendLast(blocks + [block], line) == blocks + [block + [line]]
  {
  }
}
