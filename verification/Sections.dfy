/** The two other readers of `wg0.conf` in `internal/peers/peers.go`: the section cutter and the name reader. */
module Sections {
  import opened Text
  import opened Cutting

  /** What both readers take for a peer header: any line whose trimmed text starts with `[peer]`. */
  predicate IsPeerMark(line: string) {
    "[peer]" <= ToLower(TrimSpace(line))
  }

  function Blocks(lines: seq<string>): (r: seq<seq<string>>)
    requires lines != []
    ensures |r| >= 1
  {
    Cut(IsPeerMark, lines)
  }

  function BlocksOf(content: string): (r: seq<seq<string>>)
    ensures |r| >= 1
  {
    Blocks(Split(content, '\n'))
  }

  // ---- the sections as texts ----

  function Texts(blocks: seq<seq<string>>): seq<string> {
    if blocks == [] then [] else [Unlines(blocks[0])] + Texts(blocks[1..])
  }

  lemma TextsCons(block: seq<string>, rest: seq<seq<string>>)
    ensures Texts([block] + rest) == [Unlines(block)] + Texts(rest)
  {
    assert ([block] + rest)[1..] == rest;
  }

  lemma {:induction false} TextsConcat(a: seq<seq<string>>, b: seq<seq<string>>)
    ensures Texts(a + b) == Texts(a) + Texts(b)
  {
    hide Unlines;
    if a == [] {
      assert a + b == b;
    } else {
      hide Texts;
      var head, rest := a[0], a[1..];
      TextsConcat(rest, b);
      TextsCons(head, rest);
      TextsCons(head, rest + b);
      assert a == [head] + rest && a + b == [head] + (rest + b);
      Associate([Unlines(head)], Texts(rest), Texts(b));
    }
  }

  lemma {:induction false} TextsAt(blocks: seq<seq<string>>)
    ensures |Texts(blocks)| == |blocks|
    ensures forall i :: 0 <= i < |blocks| ==> Texts(blocks)[i] == Unlines(blocks[i])
  {
    if blocks != [] {
      TextsAt(blocks[1..]);
    }
  }

  /** `strings.Join(parts, "")` */
  function Concat(parts: seq<string>): string {
    if parts == [] then "" else parts[0] + Concat(parts[1..])
  }

  lemma {:induction false} ConcatTexts(blocks: seq<seq<string>>)
    ensures Concat(Texts(blocks)) == Unlines(Flatten(blocks))
  {
    if blocks != [] {
      ConcatTexts(blocks[1..]);
      UnlinesConcat(blocks[0], Flatten(blocks[1..]));
      assert Texts(blocks)[1..] == Texts(blocks[1..]);
    }
  }

  /** On every input at all, the sections concatenate to the content plus one newline. */
  lemma SectionsConcatenate(content: string)
    ensures Concat(Texts(BlocksOf(content))) == content + "\n"
  {
    ConcatTexts(BlocksOf(content));
    CutShape(IsPeerMark, Split(content, '\n'));
    UnlinesSplit(content);
  }

  /** One round of the cutting loop, on the blocks of the lines read so far. */
  lemma GrowBlocks(lines: seq<string>, line: string, parts: seq<string>, current: string)
    requires lines != [] && parts + [current] == Texts(Blocks(lines))
    ensures Texts(Blocks(lines + [line])) ==
            if IsPeerMark(line) then parts + [current] + [line + "\n"] else parts + [current + line + "\n"]
  {
    hide IsPeerMark;
    var blocks := Blocks(lines);
    UnlinesOne(line);
    if IsPeerMark(line) {
      CutConcat(IsPeerMark, lines, [line]);
      TextsConcat(blocks, [[line]]);
      assert Cut(IsPeerMark, [line]) == [[line]];
      assert Texts([[line]]) == [line + "\n"] by {
        assert [[line]][1..] == [];
      }
    } else {
      CutSnoc(IsPeerMark, lines, line);
      GrowLast(blocks, line, parts, current);
    }
  }

  lemma GrowLast(blocks: seq<seq<string>>, line: string, parts: seq<string>, current: string)
    requires blocks != [] && parts + [current] == Texts(blocks)
    ensures Texts(ExtendLast(blocks, line)) == parts + [current + line + "\n"]
  {
    var grown := ExtendLast(blocks, line);
    var n := |parts|;
    TextsAt(blocks);
    TextsAt(grown);
    UnlinesConcat(blocks[n], [line]);
    UnlinesOne(line);
    assert current == Texts(blocks)[n];
    assert current + line + "\n" == current + (line + "\n");
    assert forall i :: 0 <= i < n ==> parts[i] == Texts(blocks)[i] == Texts(grown)[i];
  }

  /** The cutting loop: a builder for the current section, flushed at every mark but a leading one. */
  method SplitSections(content: string) returns (parts: seq<string>)
    ensures parts == Texts(BlocksOf(content))
    ensures Concat(parts) == content + "\n"
  {
    hide IsPeerMark, Split, Texts, Concat, Blocks;
    parts := [];
    var lines := Split(content, '\n');
    var current, first := "", true;
    for i := 0 to |lines|
      invariant first <==> i == 0
      invariant first ==> parts == [] && current == ""
      invariant !first ==> current != "" && parts + [current] == Texts(Blocks(lines[..i]))
    {
      var line := lines[i];
      assert lines[..i + 1] == lines[..i] + [line];
      if first {
        assert lines[..1] == [line];
        FirstLineBlock(line);
      } else {
        GrowBlocks(lines[..i], line, parts, current);
        assert "" + line + "\n" == line + "\n";
      }
      if IsPeerMark(line) && !first {
        parts := parts + [current];
        current := "";
      }
      first := false;
      current := current + line + "\n";
    }
    assert lines[..|lines|] == lines;
    if current != "" {
      parts := parts + [current];
    }
    SectionsConcatenate(content);
  }

  lemma FirstLineBlock(line: string)
    ensures Texts(Blocks([line])) == ["" + line + "\n"]
  {
    UnlinesOne(line);
    assert Blocks([line]) == [[line]];
    assert [[line]][1..] == [];
    assert "" + line + "\n" == line + "\n";
  }

  // ---- the names ----

  /** The text after the first `#` that follows the `[Peer]` prefix. */
  function NameOf(line: string): string
    requires IsPeerMark(line)
  {
    var trimmed := TrimSpace(line);
    var rest := TrimSpace(trimmed[6..]);
    var at := IndexOf(rest, '#');
    if at >= 0 then TrimSpace(rest[at + 1..]) else ""
  }

  function NameAt(line: string): seq<string> {
    if IsPeerMark(line) then [NameOf(line)] else []
  }

  function Names(lines: seq<string>): seq<string> {
    if lines == [] then [] else NameAt(lines[0]) + Names(lines[1..])
  }

  lemma NamesCons(line: string, rest: seq<string>)
    ensures Names([line] + rest) == NameAt(line) + Names(rest)
  {
    assert ([line] + rest)[1..] == rest;
  }

  lemma {:induction false} NamesConcat(a: seq<string>, b: seq<string>)
    ensures Names(a + b) == Names(a) + Names(b)
  {
    hide NameAt;
    if a == [] {
      assert a + b == b;
    } else {
      hide Names;
      var head, rest := a[0], a[1..];
      NamesConcat(rest, b);
      NamesCons(head, rest);
      NamesCons(head, rest + b);
      assert a == [head] + rest && a + b == [head] + (rest + b);
      Associate(NameAt(head), Names(rest), Names(b));
    }
  }

  lemma {:induction false} NoNames(lines: seq<string>)
    requires forall i :: 0 <= i < |lines| ==> !IsPeerMark(lines[i])
    ensures Names(lines) == []
  {
    hide IsPeerMark;
    if lines != [] {
      NoNames(lines[1..]);
    }
  }

  lemma NamesSnoc(lines: seq<string>, line: string)
    ensures Names(lines + [line]) == Names(lines) + NameAt(line)
  {
    hide NameAt;
    NamesConcat(lines, [line]);
    assert [line][1..] == [];
  }

  method ReadPeerNames(content: string) returns (names: seq<string>)
    ensures names == Names(Split(content, '\n'))
  {
    hide IsPeerMark, Names, TrimSpace, IndexOf;
    names := [];
    assert Names([]) == [] by {
      NoNames([]);
    }
    var lines := Split(content, '\n');
    for i := 0 to |lines|
      invariant names == Names(lines[..i])
    {
      assert lines[..i + 1] == lines[..i] + [lines[i]];
      NamesSnoc(lines[..i], lines[i]);
      if !IsPeerMark(lines[i]) {
        continue;
      }
      MarkLength(lines[i]);
      var trimmed := TrimSpace(lines[i]);
      var rest := TrimSpace(trimmed[6..]);
      var name := "";
      var at := IndexOf(rest, '#');
      if at >= 0 {
        name := TrimSpace(rest[at + 1..]);
      }
      names := names + [name];
    }
    assert lines[..|lines|] == lines;
  }

  lemma MarkLength(line: string)
    requires IsPeerMark(line)
    ensures |TrimSpace(line)| >= 6
  {
  }

  /** The names of a run of marked blocks: one per block, read off its first line. */
  function BlockNames(blocks: seq<seq<string>>): seq<string> {
    if blocks == [] then []
    else (if blocks[0] == [] then [] else NameAt(blocks[0][0])) + BlockNames(blocks[1..])
  }

  /** Only the first line of a block can carry a name. */
  lemma {:induction false} NamesOfBlocks(blocks: seq<seq<string>>)
    requires Shaped(IsPeerMark, blocks)
    ensures Names(Flatten(blocks)) == BlockNames(blocks)
  {
    hide NameAt, IsPeerMark;
    if blocks != [] {
      var head, rest := blocks[0], blocks[1..];
      NamesOfBlocks(rest);
      NamesConcat(head, Flatten(rest));
      NamesOfBlock(head);
    }
  }

  lemma NamesOfBlock(block: seq<string>)
    requires block != [] && forall j :: 1 <= j < |block| ==> !IsPeerMark(block[j])
    ensures Names(block) == NameAt(block[0])
  {
    hide NameAt, IsPeerMark, Names;
    NamesCons(block[0], block[1..]);
    NoNames(block[1..]);
    assert block == [block[0]] + block[1..];
  }

  // ---- what the two readers see in a line ----

  /** Blanks, `[peer]` in any case, and anything at all. */
  predicate MarkedBy(line: string, a: string, m: string, rest: string) {
    AllBlank(a) && SameLetters(m, "[peer]") && line == a + m + rest
  }

  lemma MarkLetters(m: string)
    ensures ToLower(m) == "[peer]" <==> SameLetters(m, "[peer]")
    ensures SameLetters(m, "[peer]") ==> |m| == 6 && m[0] == '[' && m[5] == ']'
  {
    hide SameLetter;
    assert ToLower("[peer]") == "[peer]";
    LowerMeaning(m, "[peer]");
    if SameLetters(m, "[peer]") {
      assert LowerChar(m[0]) == '[' && LowerChar(m[5]) == ']';
    }
  }

  lemma TrimMarked(a: string, m: string, rest: string) returns (front: string)
    requires AllBlank(a) && SameLetters(m, "[peer]")
    ensures TrimSpace(a + m + rest) == m + front && front <= rest && AllBlank(rest[|front|..])
    ensures front == "" || front[|front| - 1] !in BLANKS
  {
    hide TrimSpace, TrimRight, SameLetters;
    MarkLetters(m);
    var u := m + rest;
    var b := TrimRightPart(u);
    var t := TrimRight(u);
    assert '[' !in BLANKS && ']' !in BLANKS;
    BlankTail(u, |t|, 6);
    front := t[6..];
    assert t[..6] == u[..6] == m;
    assert t == m + front;
    assert u == m + (front + b);
    CancelHead(m, rest, front + b);
    TrimMeaning(a, t, b);
    assert a + t + b == a + m + rest;
  }

  /** A line starts a section exactly if its first word, blanks apart, starts with `[peer]` in some case. */
  lemma PeerMarkMeaning(line: string)
    ensures IsPeerMark(line) <==> exists a, m, rest :: MarkedBy(line, a, m, rest)
  {
    hide TrimSpace, ToLower, SameLetters;
    if IsPeerMark(line) {
      var a, b := TrimParts(line);
      var t := TrimSpace(line);
      MarkLetters(t[..6]);
      assert ToLower(t)[..6] == ToLower(t[..6]);
      assert line == a + t[..6] + (t[6..] + b);
      assert MarkedBy(line, a, t[..6], t[6..] + b);
    }
    if exists a, m, rest :: MarkedBy(line, a, m, rest) {
      var a, m, rest :| MarkedBy(line, a, m, rest);
      var front := MarkedIsMark(a, m, rest);
    }
  }

  lemma MarkedIsMark(a: string, m: string, rest: string) returns (front: string)
    requires AllBlank(a) && SameLetters(m, "[peer]")
    ensures TrimSpace(a + m + rest) == m + front && front <= rest && AllBlank(rest[|front|..])
    ensures front == "" || front[|front| - 1] !in BLANKS
    ensures |m| == 6 && IsPeerMark(a + m + rest)
  {
    hide TrimSpace, ToLower, SameLetters;
    front := TrimMarked(a, m, rest);
    MarkLetters(m);
    assert ToLower(m + front)[..6] == ToLower(m);
  }

  lemma FirstSharp(b: string, x: string)
    requires '#' !in b && (x == "" || x[|x| - 1] !in BLANKS)
    ensures var rest := TrimSpace(b + "#" + x);
            var at := IndexOf(rest, '#');
            at >= 0 && rest[at + 1..] == x
  {
    hide TrimSpace, TrimLeft, TrimRight, IndexOf;
    var v := b + "#" + x;
    var a := TrimLeftPart(v);
    assert '#' !in BLANKS && v[|b|] == '#';
    assert |a| <= |b|;
    var left := TrimLeft(v);
    assert v == a + (b[|a|..] + ['#'] + x);
    CancelHead(a, left, b[|a|..] + ['#'] + x);
    IndexOfAt(b[|a|..], '#', x);
    assert left[|b[|a|..]| + 1..] == x;
    assert Tight(left);
    TrimMeaning(a, left, "");
    assert a + left + "" == v;
  }

  /** The name of a section is what follows the first `#` behind the mark, blanks apart. */
  lemma NameMeaning(a: string, m: string, b: string, c: string, name: string, d: string)
    requires AllBlank(a) && SameLetters(m, "[peer]") && '#' !in b && AllBlank(c) && Tight(name) && AllBlank(d)
    ensures NameAt(a + m + (b + "#" + c + name + d)) == [name]
  {
    hide TrimSpace, SameLetters, IsPeerMark, IndexOf;
    var rest := b + "#" + c + name + d;
    var front := MarkedIsMark(a, m, rest);
    var x := if name == "" then "" else c + name;
    FrontOf(b, c, name, d, front);
    FirstSharp(b, x);
    assert (m + front)[6..] == front;
    TrimMeaning(c, name, "");
    TrimMeaning("", "", "");
    assert c + name + "" == c + name && "" + "" + "" == "";
  }

  lemma FrontOf(b: string, c: string, name: string, d: string, front: string)
    requires AllBlank(c) && Tight(name) && AllBlank(d) && '#' !in b
    requires front <= b + "#" + c + name + d && AllBlank((b + "#" + c + name + d)[|front|..])
    requires front == "" || front[|front| - 1] !in BLANKS
    ensures front == b + "#" + if name == "" then "" else c + name
  {
    var whole := b + "#" + c + name + d;
    var n := if name == "" then |b| + 1 else |b| + 1 + |c| + |name|;
    assert '#' !in BLANKS && whole[|b|] == '#';
    assert name != "" ==> whole[n - 1] == name[|name| - 1];
    assert AllBlank(whole[n..]);
    BlankTail(whole, |front|, n);
    BlankTail(whole, n, |front|);
    assert front == whole[..n];
  }

  lemma BlankTail(s: string, from: nat, n: nat)
    requires from <= |s| && AllBlank(s[from..]) && n <= |s| && (n > 0 ==> s[n - 1] !in BLANKS)
    ensures n <= from
  {
  }

  /** A mark without a comment has no name. */
  lemma NoNameMeaning(a: string, m: string, rest: string)
    requires AllBlank(a) && SameLetters(m, "[peer]") && '#' !in rest
    ensures NameAt(a + m + rest) == [""]
  {
    hide TrimSpace, SameLetters, IsPeerMark;
    var front := MarkedIsMark(a, m, rest);
    assert (m + front)[6..] == front;
    TrimSpaceChars(front);
  }
}
