/** The operations of Go's `strings` package that the relay uses, on ASCII text. */
module Text {
  import opened Cutting

  predicate IsSpace(c: char) {
    c == ' ' || '\t' <= c <= '\r'
  }

  function TrimLeft(s: string): string {
    if s != "" && IsSpace(s[0]) then TrimLeft(s[1..]) else s
  }

  function TrimRight(s: string): string {
    if s != "" && IsSpace(s[|s| - 1]) then TrimRight(s[..|s| - 1]) else s
  }

  function TrimSpace(s: string): string {
    TrimLeft(TrimRight(s))
  }

  lemma {:induction false} TrimLeftSuffix(s: string)
    ensures HasSuffix(s, TrimLeft(s))
  {
    if s != "" && IsSpace(s[0]) {
      TrimLeftSuffix(s[1..]);
    }
  }

  lemma {:induction false} TrimRightPrefix(s: string)
    ensures TrimRight(s) <= s
  {
    if s != "" && IsSpace(s[|s| - 1]) {
      TrimRightPrefix(s[..|s| - 1]);
    }
  }

  /** Trimming only drops characters. */
  lemma TrimSpaceChars(s: string)
    ensures forall c :: c in TrimSpace(s) ==> c in s
  {
    TrimRightPrefix(s);
    TrimLeftSuffix(TrimRight(s));
  }

  function LowerChar(c: char): char {
    if 'A' <= c <= 'Z' then (c as int + 32) as char else c
  }

  function ToLower(s: string): (r: string)
    ensures |r| == |s|
    ensures forall i :: 0 <= i < |s| ==> r[i] == LowerChar(s[i])
  {
    seq(|s|, i requires 0 <= i < |s| => LowerChar(s[i]))
  }

  predicate HasSuffix(s: string, suffix: string) {
    |suffix| <= |s| && s[|s| - |suffix|..] == suffix
  }

  function TrimPrefix(s: string, prefix: string): string {
    if prefix <= s then s[|prefix|..] else s
  }

  function TrimSuffix(s: string, suffix: string): string {
    if HasSuffix(s, suffix) then s[..|s| - |suffix|] else s
  }

  /** The first position of `c` in `s`, or -1. */
  function IndexOf(s: string, c: char): (r: int)
    ensures -1 <= r < |s|
    ensures r >= 0 ==> s[r] == c && c !in s[..r]
    ensures r == -1 <==> c !in s
  {
    if s == "" then -1
    else if s[0] == c then 0
    else
      var rest := IndexOf(s[1..], c);
      if rest < 0 then -1
      else
        assert s[..rest + 1] == [s[0]] + s[1..][..rest];
        rest + 1
  }

  lemma IndexOfAt(a: string, c: char, b: string)
    requires c !in a
    ensures IndexOf(a + [c] + b, c) == |a|
  {
    var s := a + [c] + b;
    assert s[|a|] == c;
    assert s[..|a|] == a;
  }

  /** `strings.Split` for a one-character separator: always at least one piece. */
  function Split(s: string, sep: char): (r: seq<string>)
    ensures |r| >= 1
  {
    if s == "" then [""]
    else
      var rest := Split(s[1..], sep);
      if s[0] == sep then [""] + rest else Push(s[0], rest)
  }

  /** The pieces are made of the text's characters, without the separator. */
  lemma {:induction false} SplitPieces(s: string, sep: char)
    ensures forall i :: 0 <= i < |Split(s, sep)| ==> sep !in Split(s, sep)[i]
    ensures forall i, c :: 0 <= i < |Split(s, sep)| && c in Split(s, sep)[i] ==> c in s
  {
    if s != "" {
      SplitPieces(s[1..], sep);
      assert s[0] in s && forall c :: c in s[1..] ==> c in s;
    }
  }

  /** Line splitting distributes over `a + "\n" + b`. */
  lemma {:induction false} SplitConcat(a: string, sep: char, b: string)
    ensures Split(a + [sep] + b, sep) == Split(a, sep) + Split(b, sep)
  {
    hide Push;
    var s := a + [sep] + b;
    if a == "" {
      assert s[1..] == b;
    } else {
      var x, y := Split(a[1..], sep), Split(b, sep);
      SplitConcat(a[1..], sep, b);
      assert s[1..] == a[1..] + [sep] + b;
      assert Split(s[1..], sep) == x + y;
      if a[0] == sep {
        assert [""] + (x + y) == [""] + x + y;
      } else {
        PushConcat(a[0], x, y);
      }
    }
  }

  lemma {:induction false} SplitWhole(s: string, sep: char)
    requires sep !in s
    ensures Split(s, sep) == [s]
  {
    if s != "" {
      SplitWhole(s[1..], sep);
      assert [s[0]] + s[1..] == s;
    }
  }

  function Join(parts: seq<string>, sep: char): string {
    if parts == [] then ""
    else if |parts| == 1 then parts[0]
    else parts[0] + [sep] + Join(parts[1..], sep)
  }

  lemma {:induction false} SplitJoin(parts: seq<string>, sep: char)
    requires parts != []
    requires forall i :: 0 <= i < |parts| ==> sep !in parts[i]
    ensures Split(Join(parts, sep), sep) == parts
  {
    SplitWhole(parts[0], sep);
    if |parts| > 1 {
      SplitJoin(parts[1..], sep);
      SplitConcat(parts[0], sep, Join(parts[1..], sep));
      assert [parts[0]] + parts[1..] == parts;
    }
  }

  /** Every line followed by its newline. */
  function Unlines(lines: seq<string>): string {
    if lines == [] then "" else lines[0] + "\n" + Unlines(lines[1..])
  }

  lemma UnlinesOne(line: string)
    ensures Unlines([line]) == line + "\n"
  {
  }

  lemma UnlinesCons(line: string, rest: seq<string>)
    ensures Unlines([line] + rest) == line + "\n" + Unlines(rest)
  {
    assert ([line] + rest)[1..] == rest;
  }

  lemma {:induction false} UnlinesConcat(a: seq<string>, b: seq<string>)
    ensures Unlines(a + b) == Unlines(a) + Unlines(b)
  {
    if a == [] {
      assert a + b == b;
    } else {
      hide Unlines;
      var head, rest := a[0], a[1..];
      UnlinesConcat(rest, b);
      UnlinesCons(head, rest);
      UnlinesCons(head, rest + b);
      assert a == [head] + rest && a + b == [head] + (rest + b);
      Associate(head + "\n", Unlines(rest), Unlines(b));
    }
  }

  lemma UnlinesPush(c: char, lines: seq<string>)
    requires lines != []
    ensures Unlines(Push(c, lines)) == [c] + Unlines(lines)
  {
  }

  lemma {:induction false} UnlinesSplit(s: string)
    ensures Unlines(Split(s, '\n')) == s + "\n"
  {
    if s == "" {
      assert Split(s, '\n')[1..] == [];
    } else {
      var rest := Split(s[1..], '\n');
      UnlinesSplit(s[1..]);
      assert s + "\n" == [s[0]] + (s[1..] + "\n");
      if s[0] == '\n' {
        assert ([""] + rest)[1..] == rest;
      } else {
        UnlinesPush(s[0], rest);
      }
    }
  }

  ghost predicate NoNewlines(lines: seq<string>) {
    forall i :: 0 <= i < |lines| ==> '\n' !in lines[i]
  }

  lemma {:induction false} SplitUnlines(lines: seq<string>)
    requires NoNewlines(lines)
    ensures Split(Unlines(lines), '\n') == lines + [""]
  {
    if lines != [] {
      SplitUnlines(lines[1..]);
      SplitConcat(lines[0], '\n', Unlines(lines[1..]));
      SplitWhole(lines[0], '\n');
      assert [lines[0]] + (lines[1..] + [""]) == lines + [""];
    }
  }

  lemma {:induction false} UnlinesJoin(lines: seq<string>)
    requires lines != []
    ensures Unlines(lines) == Join(lines, '\n') + "\n"
  {
    if |lines| == 1 {
      UnlinesOne(lines[0]);
      assert lines == [lines[0]];
    } else {
      UnlinesJoin(lines[1..]);
      assert lines[0] + "\n" + (Join(lines[1..], '\n') + "\n") == lines[0] + ['\n'] + Join(lines[1..], '\n') + "\n";
    }
  }

  lemma CancelTail<T>(a: seq<T>, b: seq<T>, tail: seq<T>)
    requires a + tail == b + tail
    ensures a == b
  {
    assert |a| == |b|;
    assert a == (a + tail)[..|a|] && b == (b + tail)[..|b|];
  }

  lemma CancelHead<T>(head: seq<T>, a: seq<T>, b: seq<T>)
    requires head + a == head + b
    ensures a == b
  {
    assert a == (head + a)[|head|..] && b == (head + b)[|head|..];
  }

  // ---- what trimming and lowering mean ----

  const BLANKS := " \t\n\U{B}\U{C}\r"

  /** Blank, tab, newline, vertical tab, form feed and carriage return. */
  predicate AllBlank(s: string) {
    forall i :: 0 <= i < |s| ==> s[i] in BLANKS
  }

  predicate Tight(s: string) {
    s == "" || (s[0] !in BLANKS && s[|s| - 1] !in BLANKS)
  }

  lemma BlankIsSpace(c: char)
    ensures c in BLANKS <==> IsSpace(c)
  {
    assert c == ' ' ==> c == BLANKS[0];
    assert c == '\t' ==> c == BLANKS[1];
    assert c == '\n' ==> c == BLANKS[2];
    assert c == '\U{B}' ==> c == BLANKS[3];
    assert c == '\U{C}' ==> c == BLANKS[4];
    assert c == '\r' ==> c == BLANKS[5];
  }

  lemma {:induction false} TrimRightBlank(s: string, b: string)
    requires AllBlank(b)
    ensures TrimRight(s + b) == TrimRight(s)
    decreases |b|
  {
    if b == "" {
      assert s + b == s;
    } else {
      var n := |b| - 1;
      BlankIsSpace(b[n]);
      assert (s + b)[..|s + b| - 1] == s + b[..n];
      TrimRightBlank(s, b[..n]);
    }
  }

  lemma {:induction false} TrimLeftBlank(a: string, s: string)
    requires AllBlank(a)
    ensures TrimLeft(a + s) == TrimLeft(s)
    decreases |a|
  {
    if a == "" {
      assert a + s == s;
    } else {
      BlankIsSpace(a[0]);
      assert (a + s)[1..] == a[1..] + s;
      TrimLeftBlank(a[1..], s);
    }
  }

  lemma {:induction false} TrimRightBehind(a: string, t: string)
    requires t != "" && t[|t| - 1] !in BLANKS
    ensures TrimRight(a + t) == a + t
  {
    BlankIsSpace(t[|t| - 1]);
    assert (a + t)[|a + t| - 1] == t[|t| - 1];
  }

  /** Trimming takes off what is blank at both ends and nothing else. */
  lemma TrimMeaning(a: string, t: string, b: string)
    requires AllBlank(a) && Tight(t) && AllBlank(b)
    ensures TrimSpace(a + t + b) == t
  {
    TrimRightBlank(a + t, b);
    if t == "" {
      assert a + t == "" + a;
      TrimRightBlank("", a);
    } else {
      TrimRightBehind(a, t);
      TrimLeftBlank(a, t);
      BlankIsSpace(t[0]);
    }
  }

  const UPPER := "ABCDEFGHIJKLMNOPQRSTUVWXYZ"
  const LOWER := "abcdefghijklmnopqrstuvwxyz"

  /** The same text but for the case of its letters. */
  predicate SameLetters(a: string, b: string) {
    |a| == |b| && forall i :: 0 <= i < |a| ==> a[i] == b[i] || SameLetter(a[i], b[i])
  }

  predicate SameLetter(c: char, d: char) {
    exists k :: 0 <= k < 26 && (c == UPPER[k] || c == LOWER[k]) && (d == UPPER[k] || d == LOWER[k])
  }

  lemma {:induction false} Alphabet(k: nat)
    requires k < 26
    ensures UPPER[k] == ('A' as int + k) as char && LOWER[k] == ('a' as int + k) as char
  {
  }

  lemma LowerLetter(c: char, d: char)
    requires SameLetter(c, d)
    ensures LowerChar(c) == LowerChar(d)
  {
    var k :| 0 <= k < 26 && (c == UPPER[k] || c == LOWER[k]) && (d == UPPER[k] || d == LOWER[k]);
    LowerAt(k, c);
    LowerAt(k, d);
  }

  lemma LowerAt(k: nat, c: char)
    requires k < 26 && (c == UPPER[k] || c == LOWER[k])
    ensures LowerChar(c) == ('a' as int + k) as char
  {
    Alphabet(k);
    LowerOf(k, c);
  }

  lemma LowerOf(k: nat, c: char)
    requires k < 26 && (c == ('A' as int + k) as char || c == ('a' as int + k) as char)
    ensures LowerChar(c) == ('a' as int + k) as char
  {
  }

  lemma SameLowered(c: char, d: char)
    requires LowerChar(c) == LowerChar(d)
    ensures c == d || SameLetter(c, d)
  {
    if c != d {
      var k := (if 'A' <= c <= 'Z' then c as int - 'A' as int else d as int - 'A' as int) as nat;
      Alphabet(k);
    }
  }

  /** Texts are the same in lower case exactly if they differ in the case of their letters only. */
  lemma LowerMeaning(a: string, b: string)
    ensures ToLower(a) == ToLower(b) <==> SameLetters(a, b)
  {
    hide SameLetter, LowerChar;
    if SameLetters(a, b) {
      forall i | 0 <= i < |a| ensures LowerChar(a[i]) == LowerChar(b[i]) {
        if a[i] != b[i] {
          LowerLetter(a[i], b[i]);
        }
      }
    } else if ToLower(a) == ToLower(b) {
      forall i | 0 <= i < |a| ensures a[i] == b[i] || SameLetter(a[i], b[i]) {
        assert ToLower(a)[i] == ToLower(b)[i];
        SameLowered(a[i], b[i]);
      }
    }
  }

  lemma {:induction false} TrimRightPart(s: string) returns (b: string)
    ensures s == TrimRight(s) + b && AllBlank(b) && (TrimRight(s) != "" ==> TrimRight(s)[|TrimRight(s)| - 1] !in BLANKS)
  {
    b := "";
    if s != "" {
      var n := |s| - 1;
      BlankIsSpace(s[n]);
      if IsSpace(s[n]) {
        b := TrimRightPart(s[..n]);
        b := b + [s[n]];
      }
    }
  }

  lemma {:induction false} TrimLeftPart(s: string) returns (a: string)
    ensures s == a + TrimLeft(s) && AllBlank(a) && (TrimLeft(s) != "" ==> TrimLeft(s)[0] !in BLANKS)
  {
    a := "";
    if s != "" {
      BlankIsSpace(s[0]);
      if IsSpace(s[0]) {
        a := TrimLeftPart(s[1..]);
        a := [s[0]] + a;
      }
    }
  }

  /** Every text is its trimmed text between blanks. */
  lemma TrimParts(s: string) returns (a: string, b: string)
    ensures s == a + TrimSpace(s) + b && AllBlank(a) && AllBlank(b) && Tight(TrimSpace(s))
  {
    hide TrimRight, TrimLeft;
    b := TrimRightPart(s);
    a := TrimLeftPart(TrimRight(s));
    var t := TrimSpace(s);
    if t != "" {
      assert (a + t)[|a + t| - 1] == t[|t| - 1];
    }
  }
}
