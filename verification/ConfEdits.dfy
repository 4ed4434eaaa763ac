/** Well-formed `wg0.conf` texts: what removing and appending a peer does to what the readers see. */
module ConfEdits {
  import opened Wrappers
  import opened Text
  import opened Cutting
  import opened WgConfig
  import opened Sections
  import opened ConfFile

  // ---- well-formedness ----

  /** The splitter never cuts before the first line, so a leading header shifts every block. */
  ghost predicate StartsUnmarked(lines: seq<string>) {
    lines != [] && !IsPeerMark(lines[0])
  }

  /** The parser and the other two readers take the same lines for peer headers. */
  ghost predicate ReadersAgree(lines: seq<string>) {
    forall i :: 0 <= i < |lines| ==> (IsPeerMark(lines[i]) <==> IsPeerHeader(lines[i]))
  }

  /** No interface section after the first peer. */
  ghost predicate InterfaceFirst(lines: seq<string>) {
    forall i, j :: 0 <= i < j < |lines| && IsPeerHeader(lines[i]) ==> !IsInterfaceHeader(lines[j])
  }

  ghost predicate WF(content: string) {
    var lines := Split(content, '\n');
    StartsUnmarked(lines) && ReadersAgree(lines) && InterfaceFirst(lines)
  }

  // ---- the same in terms of blocks ----

  predicate IsPreamble(block: seq<string>) {
    block != [] && forall j :: 0 <= j < |block| ==> !IsPeerMark(block[j]) && !IsPeerHeader(block[j])
  }

  predicate WFBlocks(blocks: seq<seq<string>>) {
    blocks != [] && IsPreamble(blocks[0]) && PeerBlocks(blocks[1..])
  }

  lemma {:induction false} FlattenMember<T>(blocks: seq<seq<T>>, x: T)
    ensures x in Flatten(blocks) <==> exists i :: 0 <= i < |blocks| && x in blocks[i]
  {
    if blocks != [] {
      FlattenMember(blocks[1..], x);
      if i :| 0 <= i < |blocks| && x in blocks[i] {
        assert i > 0 ==> x in blocks[1..][i - 1];
      }
    }
  }

  lemma PeerIsNotInterface(raw: string)
    requires IsPeerHeader(raw)
    ensures !IsInterfaceHeader(raw)
  {
  }

  /** After lines without peer headers, the clause speaks of the rest from its first header on. */
  lemma InterfaceFirstTail(a: seq<string>, b: seq<string>)
    requires forall i :: 0 <= i < |a| ==> !IsPeerHeader(a[i])
    requires b != [] ==> IsPeerHeader(b[0])
    ensures InterfaceFirst(a + b) <==> forall j :: 0 <= j < |b| ==> !IsInterfaceHeader(b[j])
  {
    hide IsHeader;
    var lines := a + b;
    if b != [] {
      PeerIsNotInterface(b[0]);
      assert lines[|a|] == b[0];
    }
    if InterfaceFirst(lines) {
      forall j | 1 <= j < |b| ensures !IsInterfaceHeader(b[j]) {
        assert lines[|a| + j] == b[j];
      }
    }
    if forall j :: 0 <= j < |b| ==> !IsInterfaceHeader(b[j]) {
      forall i, j | 0 <= i < j < |lines| && IsPeerHeader(lines[i]) ensures !IsInterfaceHeader(lines[j]) {
        assert lines[j] == b[j - |a|];
      }
    }
  }

  lemma WFLinesToBlocks(lines: seq<string>)
    requires StartsUnmarked(lines) && ReadersAgree(lines) && InterfaceFirst(lines)
    ensures WFBlocks(Blocks(lines))
  {
    hide IsPeerMark, IsHeader;
    var blocks := Blocks(lines);
    CutShape(IsPeerMark, lines);
    var head, rest := blocks[0], blocks[1..];
    assert lines == head + Flatten(rest);
    forall j | 0 <= j < |head| ensures !IsPeerMark(head[j]) && !IsPeerHeader(head[j]) {
      assert head[j] == lines[j];
    }
    if rest != [] {
      assert Flatten(rest)[0] == rest[0][0] == blocks[1][0];
      assert lines[|head|] == blocks[1][0];
    }
    InterfaceFirstTail(head, Flatten(rest));
    forall i | 0 <= i < |rest| ensures IsPeerBlock(rest[i]) {
      assert rest[i] == blocks[i + 1];
      forall j | 0 <= j < |rest[i]|
        ensures IsPeerMark(rest[i][j]) <==> IsPeerHeader(rest[i][j])
        ensures !IsInterfaceHeader(rest[i][j])
      {
        FlattenMember(rest, rest[i][j]);
        assert rest[i][j] in lines;
      }
    }
  }

  lemma WFBlocksToLines(blocks: seq<seq<string>>)
    requires WFBlocks(blocks)
    ensures Shaped(IsPeerMark, blocks) && Blocks(Flatten(blocks)) == blocks
    ensures StartsUnmarked(Flatten(blocks)) && ReadersAgree(Flatten(blocks)) && InterfaceFirst(Flatten(blocks))
  {
    hide IsPeerMark, IsHeader;
    var head, rest := blocks[0], blocks[1..];
    var lines := Flatten(blocks);
    assert forall i :: 1 <= i < |blocks| ==> blocks[i] == rest[i - 1];
    CutUnique(IsPeerMark, blocks);
    forall k | 0 <= k < |lines| ensures IsPeerMark(lines[k]) <==> IsPeerHeader(lines[k]) {
      FlattenMember(blocks, lines[k]);
    }
    if rest != [] {
      assert Flatten(rest)[0] == rest[0][0];
    }
    forall j | 0 <= j < |Flatten(rest)| ensures !IsInterfaceHeader(Flatten(rest)[j]) {
      NoInterfaceInPeers(rest, Flatten(rest)[j]);
    }
    InterfaceFirstTail(head, Flatten(rest));
  }

  lemma NoInterfaceInPeers(blocks: seq<seq<string>>, line: string)
    requires PeerBlocks(blocks) && line in Flatten(blocks)
    ensures !IsInterfaceHeader(line)
  {
  }

  /** Well-formedness is a property of the blocks. */
  lemma WFIsBlocks(content: string)
    ensures WF(content) <==> WFBlocks(BlocksOf(content))
    ensures Flatten(BlocksOf(content)) == Split(content, '\n')
  {
    hide WFBlocks, StartsUnmarked, ReadersAgree, InterfaceFirst;
    var lines := Split(content, '\n');
    CutShape(IsPeerMark, lines);
    if WF(content) {
      WFLinesToBlocks(lines);
    }
    if WFBlocks(BlocksOf(content)) {
      WFBlocksToLines(BlocksOf(content));
    }
  }

  // ---- what a well-formed text denotes ----

  lemma PreambleRun(block: seq<string>)
    requires IsPreamble(block) && Run(START, block).Ok?
    ensures Run(START, block).value.Peers() == [] && Consistent(Run(START, block).value)
  {
    hide Step, IsHeader, IsPeerMark;
    NoHeaders(block);
    RunInvariant(START, block);
  }

  /** Interface from the first block, one peer from each other block, in order. */
  lemma ParseBlocks(blocks: seq<seq<string>>)
    requires WFBlocks(blocks)
    ensures ParseLines(Flatten(blocks)).Ok? <==>
              Run(START, blocks[0]).Ok? && |blocks| - 1 <= MAX_WG_PEERS && AllRun(blocks[1..])
    ensures ParseLines(Flatten(blocks)).Ok? ==>
              ParseLines(Flatten(blocks)).value ==
              Config(Run(START, blocks[0]).value.iface, BlockPeersOf(blocks[1..]))
  {
    hide IsPreamble, IsPeerBlock, BlockRun, BlockPeer, Step;
    RunConcat(START, blocks[0], Flatten(blocks[1..]));
    if Run(START, blocks[0]).Ok? {
      PreambleRun(blocks[0]);
      RunBlocks(Run(START, blocks[0]).value, blocks[1..]);
      assert [] + BlockPeersOf(blocks[1..]) == BlockPeersOf(blocks[1..]);
    }
  }

  // ---- writing blocks back ----

  predicate CleanBlocks(blocks: seq<seq<string>>) {
    forall i, j :: 0 <= i < |blocks| && 0 <= j < |blocks[i]| ==> '\n' !in blocks[i][j]
  }

  lemma CleanFlatten(blocks: seq<seq<string>>)
    requires CleanBlocks(blocks)
    ensures NoNewlines(Flatten(blocks))
  {
  }

  lemma BlocksOfAreClean(content: string)
    ensures CleanBlocks(BlocksOf(content))
  {
    hide IsPeerMark;
    var lines, blocks := Split(content, '\n'), BlocksOf(content);
    SplitPieces(content, '\n');
    CutShape(IsPeerMark, lines);
    forall i, j | 0 <= i < |blocks| && 0 <= j < |blocks[i]| ensures '\n' !in blocks[i][j] {
      FlattenMember(blocks, blocks[i][j]);
    }
  }

  /** Joined texts parse as their lines do. */
  lemma JoinedParse(blocks: seq<seq<string>>)
    requires CleanBlocks(blocks)
    ensures Split(Concat(Texts(blocks)), '\n') == Flatten(blocks) + [""]
    ensures Parse(Concat(Texts(blocks))) == ParseLines(Flatten(blocks))
  {
    hide ParseLines, Parse, Split;
    ConcatTexts(blocks);
    CleanFlatten(blocks);
    SplitUnlines(Flatten(blocks));
    ParseSplit(Concat(Texts(blocks)));
    ParseBlankTail(Flatten(blocks));
  }

  /** Joining the texts of well-formed blocks gives a text with those blocks, the last one ending in a blank line. */
  lemma JoinedBlocks(blocks: seq<seq<string>>)
    requires WFBlocks(blocks) && CleanBlocks(blocks)
    ensures BlocksOf(Concat(Texts(blocks))) == ExtendLast(blocks, "")
    ensures WF(Concat(Texts(blocks)))
    ensures Parse(Concat(Texts(blocks))) == ParseLines(Flatten(blocks))
  {
    hide IsPeerMark, IsHeader, ParseLines, Parse, WF, Split;
    JoinedParse(blocks);
    WFBlocksToLines(blocks);
    BlankLine(START);
    CutSnoc(IsPeerMark, Flatten(blocks), "");
    ExtendedIsWF(blocks);
    WFIsBlocks(Concat(Texts(blocks)));
  }

  lemma ParseBlankTail(lines: seq<string>)
    ensures ParseLines(lines + [""]) == ParseLines(lines)
  {
    hide Step;
    RunBlankTail(START, lines);
  }

  lemma ExtendedIsWF(blocks: seq<seq<string>>)
    requires WFBlocks(blocks)
    ensures WFBlocks(ExtendLast(blocks, ""))
  {
  }

  // ---- removing a block ----

  function DropAt<T>(s: seq<T>, i: nat): (r: seq<T>)
    requires i < |s|
  {
    s[..i] + s[i + 1..]
  }

  /** `rewriteWithout`: the text with the block after the `i`-th cut left out. */
  function WithoutBlock(content: string, i: nat): Option<string> {
    var blocks := BlocksOf(content);
    if i + 1 >= |blocks| then None else Some(Concat(Texts(DropAt(blocks, i + 1))))
  }

  lemma DroppedIsWF(blocks: seq<seq<string>>, i: nat)
    requires WFBlocks(blocks) && CleanBlocks(blocks) && i + 1 < |blocks|
    ensures WFBlocks(DropAt(blocks, i + 1)) && CleanBlocks(DropAt(blocks, i + 1))
    ensures DropAt(blocks, i + 1)[0] == blocks[0] && DropAt(blocks, i + 1)[1..] == DropAt(blocks[1..], i)
    ensures AllRun(blocks[1..]) ==> AllRun(DropAt(blocks[1..], i))
    ensures BlockPeersOf(DropAt(blocks[1..], i)) == DropAt(BlockPeersOf(blocks[1..]), i)
  {
    hide IsPreamble, IsPeerBlock, BlockPeer, BlockRun;
    var r := DropAt(blocks, i + 1);
    assert r[1..] == DropAt(blocks[1..], i);
  }

  /** Textual removal commutes with parsing: same interface, exactly element `i` gone, and still well-formed. */
  lemma RemovalCommutes(content: string, i: nat)
    requires WF(content) && Parse(content).Ok? && i < |Parse(content).value.peers|
    ensures WithoutBlock(content, i).Some?
    ensures var text := WithoutBlock(content, i).value;
            WF(text) &&
            Parse(text) == Ok(Config(Parse(content).value.iface, DropAt(Parse(content).value.peers, i)))
  {
    hide WF, WFBlocks, CleanBlocks, AllRun, Step, BlockPeer, BlockRun;
    var blocks := BlocksOf(content);
    WFIsBlocks(content);
    ParseSplit(content);
    ParseBlocks(blocks);
    BlocksOfAreClean(content);
    DroppedIsWF(blocks, i);
    var left := DropAt(blocks, i + 1);
    ParseBlocks(left);
    JoinedBlocks(left);
  }
}
