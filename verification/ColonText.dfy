/** Which colon texts denote which IPv6 addresses (section 2.2 of RFC 4291): exactly these, written out as pieces. */
module ColonText {
  import opened Wrappers
  import opened Text
  import opened Prefixes
  import opened AddressText
  import Decimal

  // ---- digits ----

  /** A hex digit in either case, worth its place in the alphabet; and a number has its high digits first. */
  lemma HexDigitMeaning(c: char, v: nat)
    ensures IsHex(c) && HexDigitValue(c) == v <==>
            v < 16 && (c == "0123456789abcdef"[v] || c == "0123456789ABCDEF"[v])
  {
  }

  lemma HexValueMeaning(s: string, c: char)
    requires IsHex(c) && forall i :: 0 <= i < |s| ==> IsHex(s[i])
    ensures HexValue(s + [c]) == 16 * HexValue(s) + HexDigitValue(c) && HexValue("") == 0
  {
    hide HexDigitValue, IsHex;
    assert (s + [c])[..|s|] == s;
  }

  lemma GroupsValueMeaning(values: seq<nat>, v: nat)
    ensures GroupsValue(values + [v]) == 65536 * GroupsValue(values) + v && GroupsValue([]) == 0
  {
    assert (values + [v])[..|values|] == values;
  }

  lemma HexMarks()
    ensures !IsHex('%') && !IsHex(':') && !IsHex('.') && !IsHex('/')
  {
  }

  // ---- pieces ----

  /** One to four hex digits. */
  predicate GroupText(t: string) {
    1 <= |t| <= 4 && forall i :: 0 <= i < |t| ==> IsHex(t[i])
  }

  /** Groups, and perhaps a dotted address in the place of the last two. */
  datatype Part = Part(groups: seq<string>, tail: Option<string>)

  predicate Sound(p: Part) {
    (forall i :: 0 <= i < |p.groups| ==> GroupText(p.groups[i])) && (p.tail.Some? ==> ReadDotted(p.tail.value).Some?)
  }

  function Pieces(p: Part): seq<string> {
    p.groups + if p.tail.Some? then [p.tail.value] else []
  }

  /** The pieces with colons between them. */
  function PartText(p: Part): string {
    Join(Pieces(p), ':')
  }

  function Values(p: Part): (r: seq<nat>)
    requires Sound(p)
    ensures |r| == |p.groups| + if p.tail.Some? then 2 else 0
  {
    seq(|p.groups|, i requires 0 <= i < |p.groups| => HexValue(p.groups[i])) +
    if p.tail.Some? then TailValues(p.tail.value) else []
  }

  function TailValues(d: string): seq<nat>
    requires ReadDotted(d).Some?
  {
    [ReadDotted(d).value / 0x1_0000, ReadDotted(d).value % 0x1_0000]
  }

  function More(t: string, p: Part): Part {
    Part([t] + p.groups, p.tail)
  }

  /** A part is a dotted address, or a last group, or a group in front of a part. */
  lemma PartCases(p: Part)
    requires Sound(p) && Pieces(p) != []
    ensures p == Part([], p.tail) || p == Part([p.groups[0]], None) ||
            (p == More(p.groups[0], Part(p.groups[1..], p.tail)) && Sound(Part(p.groups[1..], p.tail)) &&
             Pieces(Part(p.groups[1..], p.tail)) != [])
  {
    if p.groups != [] {
      assert p.groups == [p.groups[0]] + p.groups[1..];
    }
  }

  lemma DottedPart(d: string)
    requires ReadDotted(d).Some?
    ensures PartText(Part([], Some(d))) == d && Sound(Part([], Some(d))) && Values(Part([], Some(d))) == TailValues(d)
  {
    hide ReadDotted;
    assert [] + [d] == [d];
    assert [] + TailValues(d) == TailValues(d);
  }

  lemma LastPart(t: string)
    requires GroupText(t)
    ensures PartText(Part([t], None)) == t && Sound(Part([t], None)) && Values(Part([t], None)) == [HexValue(t)]
  {
    hide HexValue;
    assert [t] + [] == [t];
  }

  lemma MorePart(t: string, p: Part)
    requires GroupText(t) && Sound(p) && Pieces(p) != []
    ensures Sound(More(t, p)) && PartText(More(t, p)) == t + ":" + PartText(p)
    ensures Values(More(t, p)) == [HexValue(t)] + Values(p)
  {
    hide HexValue, ReadDotted, GroupText;
    assert Pieces(More(t, p)) == [t] + Pieces(p);
    assert ([t] + Pieces(p))[1..] == Pieces(p);
  }

  lemma NoPieces(p: Part)
    ensures Pieces(p) == [] <==> p == Part([], None)
  {
  }

  lemma EmptyPart(p: Part)
    requires p == Part([], None)
    ensures Pieces(p) == [] && PartText(p) == "" && Sound(p) && Values(p) == []
  {
  }

  /** How a part starts, and which characters it has. */
  lemma {:induction false} PartChars(p: Part)
    requires Sound(p)
    ensures forall c :: c in PartText(p) ==> IsHex(c) || c == ':' || c == '.'
    ensures Pieces(p) != [] ==> PartText(p) != "" && IsHex(PartText(p)[0])
    decreases |p.groups|
  {
    hide IsHex, ReadDotted;
    if Pieces(p) == [] {
      EmptyPart(p);
    } else {
      PartCases(p);
      if p.groups == [] {
        DottedPart(p.tail.value);
        DottedIsHex(p.tail.value);
      } else {
        var t := p.groups[0];
        assert GroupText(t);
        LastPart(t);
        if p != Part([t], None) {
          var rest := Part(p.groups[1..], p.tail);
          MorePart(t, rest);
          PartChars(rest);
          assert PartText(p)[0] == t[0];
        }
      }
    }
  }

  lemma DottedIsHex(d: string)
    requires ReadDotted(d).Some?
    ensures d != "" && IsHex(d[0]) && forall c :: c in d ==> IsHex(c) || c == '.'
  {
    hide ReadDotted, Dotted;
    DottedExactly(d, ReadDotted(d).value);
    var w, x, y, z :| w <= 255 && x <= 255 && y <= 255 && z <= 255 && d == Dotted(w, x, y, z) &&
                      ReadDotted(d).value == Number(w, x, y, z);
    DottedNotation(w, x, y, z);
    FirstOfDotted(w, x, y, z);
  }

  lemma FirstOfDotted(a: nat, b: nat, c: nat, d: nat)
    ensures Dotted(a, b, c, d) != "" && IsHex(Dotted(a, b, c, d)[0])
  {
    hide Decimal.FormatNat;
    assert Dotted(a, b, c, d)[0] == Decimal.FormatNat(a)[0];
    assert Decimal.IsDigit(Decimal.FormatNat(a)[0]);
  }

  // ---- one step of the reader ----

  lemma {:induction false} HexRunOf(t: string, rest: string)
    requires (forall i :: 0 <= i < |t| ==> IsHex(t[i])) && (rest == "" || !IsHex(rest[0]))
    ensures HexRun(t + rest) == |t|
    decreases |t|
  {
    hide IsHex;
    if t == "" {
      assert t + rest == rest;
    } else {
      assert (t + rest)[1..] == t[1..] + rest;
      HexRunOf(t[1..], rest);
    }
  }

  /** One group and what follows it. */
  lemma GroupStep(t: string, rest: string, read: Groups)
    requires GroupText(t) && |read.values| < 8 && (rest == "" || (rest[0] == ':' && |rest| > 1))
    ensures var next := read.(values := read.values + [HexValue(t)]);
            ReadGroups(t + rest, read) ==
            if rest == "" then Some(next)
            else if rest[1] != ':' then ReadGroups(rest[1..], next)
            else if read.gap.Some? then None
            else
              var gapped := next.(gap := Some(|read.values| + 1));
              if |rest| == 2 then Some(gapped) else ReadGroups(rest[2..], gapped)
  {
    hide HexValue, HexRun, ReadDotted;
    HexRunOf(t, rest);
    var s := t + rest;
    assert s[..|t|] == t && s[|t|..] == rest;
  }

  lemma DottedStep(d: string, read: Groups)
    requires ReadDotted(d).Some? && |read.values| <= 6 && (read.gap.None? ==> |read.values| == 6)
    ensures ReadGroups(d, read) == Some(read.(values := read.values + TailValues(d)))
  {
    hide ReadDotted, HexRun, HexValue, Dotted;
    DottedExactly(d, ReadDotted(d).value);
    var w, x, y, z :| w <= 255 && x <= 255 && y <= 255 && z <= 255 && d == Dotted(w, x, y, z) &&
                      ReadDotted(d).value == Number(w, x, y, z);
    FirstField(w, x, y, z);
  }

  lemma FirstField(a: nat, b: nat, c: nat, d: nat)
    requires a <= 255
    ensures var s := Dotted(a, b, c, d); 1 <= HexRun(s) <= 3 && HexRun(s) < |s| && s[HexRun(s)] == '.'
  {
    hide HexRun, Decimal.FormatNat;
    var first := Decimal.FormatNat(a);
    var rest := "." + Decimal.FormatNat(b) + "." + Decimal.FormatNat(c) + "." + Decimal.FormatNat(d);
    FieldExactly(first, a);
    HexMarks();
    DigitsAreHex(a);
    assert Dotted(a, b, c, d) == first + rest && rest[0] == '.';
    HexRunOf(first, rest);
  }

  lemma DigitsAreHex(n: nat)
    ensures forall i :: 0 <= i < |Decimal.FormatNat(n)| ==> IsHex(Decimal.FormatNat(n)[i])
  {
  }

  // ---- every written address is read ----

  /** A dotted tail without a gap in front of it must be the last two of eight. */
  predicate Fits(read: Groups, p: Part)
    requires Sound(p)
  {
    var total := |read.values| + |Values(p)|;
    total <= 8 && (p.tail.Some? && read.gap.None? ==> total == 8)
  }

  lemma {:induction false} PartRead(p: Part, read: Groups)
    requires Sound(p) && Pieces(p) != [] && Fits(read, p)
    ensures ReadGroups(PartText(p), read) == Some(read.(values := read.values + Values(p)))
    decreases |p.groups|
  {
    hide HexValue, ReadGroups, IsHex, ReadDotted, PartText, Pieces;
    PartCases(p);
    NoPieces(p);
    if p.groups == [] {
      DottedPart(p.tail.value);
      DottedStep(p.tail.value, read);
    } else {
      var t := p.groups[0];
      var next := read.(values := read.values + [HexValue(t)]);
      assert GroupText(t);
      LastPart(t);
      if p == Part([t], None) {
        GroupStep(t, "", read);
        assert t + "" == t;
      } else {
        var rest := Part(p.groups[1..], p.tail);
        MorePart(t, rest);
        PartChars(rest);
        HexMarks();
        var behind := ":" + PartText(rest);
        GroupStep(t, behind, read);
        assert behind[1..] == PartText(rest) && t + behind == t + ":" + PartText(rest);
        PartRead(rest, next);
        assert read.values + ([HexValue(t)] + Values(rest)) == next.values + Values(rest);
      }
    }
  }

  lemma {:induction false} GapRead(left: Part, right: Part, read: Groups)
    requires Sound(left) && left.tail.None? && left.groups != [] && Sound(right) && read.gap.None?
    requires |read.values| + |Values(left)| + |Values(right)| <= 8
    ensures ReadGroups(PartText(left) + "::" + PartText(right), read) ==
            Some(Groups(read.values + Values(left) + Values(right), Some(|read.values| + |Values(left)|)))
    decreases |left.groups|
  {
    hide HexValue, ReadGroups, IsHex, ReadDotted, PartText, Pieces;
    var t, tail := left.groups[0], PartText(right);
    var next := read.(values := read.values + [HexValue(t)]);
    assert GroupText(t);
    LastPart(t);
    if |left.groups| == 1 {
      assert left == Part([t], None);
      GroupStep(t, "::" + tail, read);
      assert t + ("::" + tail) == t + "::" + tail && ("::" + tail)[2..] == tail;
      RightRead(next.(gap := Some(|read.values| + 1)), right);
    } else {
      var rest := Part(left.groups[1..], None);
      assert left == More(t, rest) && Pieces(rest) != [] by {
        NotEmpty(left);
      }
      MorePart(t, rest);
      PartChars(rest);
      HexMarks();
      var more := PartText(rest) + "::" + tail;
      GroupStep(t, ":" + more, read);
      assert t + (":" + more) == t + ":" + PartText(rest) + "::" + tail && (":" + more)[1..] == more;
      GapRead(rest, right, next);
      assert read.values + ([HexValue(t)] + Values(rest)) == next.values + Values(rest);
    }
  }

  lemma NotEmpty(left: Part)
    requires |left.groups| > 1 && left.tail.None?
    ensures Pieces(Part(left.groups[1..], None)) != [] && left == More(left.groups[0], Part(left.groups[1..], None))
  {
  }

  /** Behind the gap there may be nothing. */
  lemma RightRead(gapped: Groups, right: Part)
    requires Sound(right) && gapped.gap.Some? && |gapped.values| + |Values(right)| <= 8
    ensures (if PartText(right) == "" then Some(gapped) else ReadGroups(PartText(right), gapped)) ==
            Some(gapped.(values := gapped.values + Values(right)))
  {
    hide ReadGroups, IsHex, ReadDotted;
    if Pieces(right) == [] {
      EmptyPart(right);
      assert gapped.values + [] == gapped.values;
    } else {
      PartChars(right);
      PartRead(right, gapped);
    }
  }

  // ---- and nothing else ----

  /** What can have been read: one part, or two around a gap. */
  datatype Shape = Whole(part: Part) | Gapped(left: Part, right: Part)

  predicate ShapeSound(h: Shape) {
    match h
    case Whole(p) => Sound(p) && Pieces(p) != []
    case Gapped(left, right) => Sound(left) && left.tail.None? && left.groups != [] && Sound(right)
  }

  function ShapeText(h: Shape): string {
    match h
    case Whole(p) => PartText(p)
    case Gapped(left, right) => PartText(left) + "::" + PartText(right)
  }

  function ShapeRead(h: Shape, read: Groups): Groups
    requires ShapeSound(h)
  {
    match h
    case Whole(p) => read.(values := read.values + Values(p))
    case Gapped(left, right) =>
      Groups(read.values + Values(left) + Values(right), Some(|read.values| + |Values(left)|))
  }

  function MoreShape(t: string, h: Shape): Shape {
    match h
    case Whole(p) => Whole(More(t, p))
    case Gapped(left, right) => Gapped(More(t, left), right)
  }

  lemma MoreOf(t: string, h: Shape, read: Groups)
    requires GroupText(t) && ShapeSound(h)
    ensures ShapeSound(MoreShape(t, h)) && ShapeText(MoreShape(t, h)) == t + ":" + ShapeText(h)
    ensures ShapeRead(MoreShape(t, h), read) == ShapeRead(h, read.(values := read.values + [HexValue(t)]))
  {
    hide HexValue, ReadDotted, IsHex, PartText, Values, Pieces;
    var p := if h.Whole? then h.part else h.left;
    assert Pieces(p) != [] by {
      if h.Gapped? {
        GroupsArePieces(p);
      }
    }
    MorePart(t, p);
    assert read.values + ([HexValue(t)] + Values(p)) == read.values + [HexValue(t)] + Values(p);
    if h.Gapped? {
      assert t + ":" + PartText(p) + "::" + PartText(h.right) == t + ":" + (PartText(p) + "::" + PartText(h.right));
    } else {
      GroupsArePieces(More(t, p));
    }
  }

  lemma GroupsArePieces(p: Part)
    requires p.groups != []
    ensures Pieces(p) != []
  {
  }

  /** A text that is read is a dotted address, or starts with a group that ends the text or has a colon behind it. */
  lemma ReadCases(s: string, read: Groups)
    requires |read.values| <= 8 && s != "" && ReadGroups(s, read).Some?
    ensures var off := HexRun(s);
            (ReadDotted(s).Some? && ReadGroups(s, read) == Some(read.(values := read.values + TailValues(s)))) ||
            (GroupText(s[..off]) && |read.values| < 8 &&
             (s[off..] == "" || (s[off..][0] == ':' && |s[off..]| > 1)))
  {
    hide HexValue, IsHex, ReadDotted, HexRun;
  }

  /** Whatever the reader takes has one of the two shapes; behind a gap there is no second one. */
  lemma {:induction false} ReadShape(s: string, read: Groups) returns (h: Shape)
    requires |read.values| <= 8 && s != "" && ReadGroups(s, read).Some?
    ensures ShapeSound(h) && s == ShapeText(h) && ReadGroups(s, read) == Some(ShapeRead(h, read))
    ensures read.gap.Some? ==> h.Whole?
    decreases |s|
  {
    hide HexValue, IsHex, ReadDotted, PartText, HexRun, Pieces, Values, ReadGroups, ShapeSound, GroupText, ShapeRead,
         ShapeText;
    ReadCases(s, read);
    var t, rest := s[..HexRun(s)], s[HexRun(s)..];
    assert s == t + rest;
    if ReadDotted(s).Some? && ReadGroups(s, read) == Some(read.(values := read.values + TailValues(s))) {
      h := Whole(Part([], Some(s)));
      TailShape(s, read);
    } else {
      GroupStep(t, rest, read);
      var next := read.(values := read.values + [HexValue(t)]);
      if rest == "" {
        h := Whole(Part([t], None));
        LastShape(t, read);
      } else if rest[1] != ':' {
        var behind := ReadShape(rest[1..], next);
        MoreOf(t, behind, read);
        assert s == t + ":" + rest[1..];
        h := MoreShape(t, behind);
      } else {
        var right := Part([], None);
        EmptyPart(right);
        assert s == t + "::" + rest[2..];
        if |rest| > 2 {
          var behind := ReadShape(rest[2..], next.(gap := Some(|read.values| + 1)));
          right := behind.part;
          WholeShape(right, next.(gap := Some(|read.values| + 1)));
        } else {
          assert next.values + Values(right) == next.values;
        }
        h := Gapped(Part([t], None), right);
        GapShape(t, right, read);
      }
    }
  }

  lemma TailShape(d: string, read: Groups)
    requires ReadDotted(d).Some?
    ensures var h := Whole(Part([], Some(d)));
            ShapeSound(h) && ShapeText(h) == d && ShapeRead(h, read) == read.(values := read.values + TailValues(d))
  {
    hide ReadDotted;
    DottedPart(d);
  }

  lemma LastShape(t: string, read: Groups)
    requires GroupText(t)
    ensures var h := Whole(Part([t], None));
            ShapeSound(h) && ShapeText(h) == t && ShapeRead(h, read) == read.(values := read.values + [HexValue(t)])
  {
    hide HexValue;
    LastPart(t);
  }

  lemma WholeShape(p: Part, read: Groups)
    requires ShapeSound(Whole(p))
    ensures Sound(p) && ShapeText(Whole(p)) == PartText(p)
    ensures ShapeRead(Whole(p), read) == read.(values := read.values + Values(p))
  {
  }

  lemma TailIsPiece(d: string)
    ensures Pieces(Part([], Some(d))) != []
  {
  }

  lemma GapShape(t: string, right: Part, read: Groups)
    requires GroupText(t) && Sound(right)
    ensures var h := Gapped(Part([t], None), right);
            ShapeSound(h) && ShapeText(h) == t + "::" + PartText(right) &&
            ShapeRead(h, read) == Groups(read.values + [HexValue(t)] + Values(right), Some(|read.values| + 1))
  {
    hide HexValue, ReadDotted, PartText;
    LastPart(t);
  }

  // ---- whole addresses ----

  /** Eight groups in one part. */
  ghost predicate IsFull(s: string, n: nat) {
    exists p: Part {:trigger PartText(p)} ::
      Sound(p) && s == PartText(p) && |Values(p)| == 8 && n == GroupsValue(Values(p))
  }

  /** Two parts around a double colon, which stands for the missing groups, at least one, and they are zero. */
  ghost predicate IsGapped(s: string, n: nat) {
    exists left: Part, right: Part {:trigger PartText(left), PartText(right)} ::
      Sound(left) && left.tail.None? && Sound(right) && |Values(left)| + |Values(right)| <= 7 &&
      s == PartText(left) + "::" + PartText(right) &&
      n == GroupsValue(Values(left) + Zeros(8 - |Values(left)| - |Values(right)|) + Values(right))
  }

  /** What is read of a text, by the way it starts. */
  function ReadAll(s: string): Option<Groups> {
    if s == "::" then Some(Groups([], Some(0)))
    else if "::" <= s then ReadGroups(s[2..], Groups([], Some(0)))
    else ReadGroups(s, Groups([], None))
  }

  lemma FullReads(p: Part)
    requires Sound(p) && |Values(p)| == 8
    ensures ReadColons(PartText(p)) == Some(GroupsValue(Values(p)))
  {
    hide ReadGroups, GroupsValue, ReadDotted, IsHex, PartText;
    if Pieces(p) == [] {
      EmptyPart(p);
    }
    PartChars(p);
    HexMarks();
    PartRead(p, Groups([], None));
    assert [] + Values(p) == Values(p);
  }

  lemma GapExpands(a: seq<nat>, b: seq<nat>)
    requires |a| + |b| <= 7
    ensures Expand(Groups(a + b, Some(|a|))) == Some(a + Zeros(8 - |a| - |b|) + b)
  {
  }

  lemma GapAll(left: Part, right: Part)
    requires Sound(left) && left.tail.None? && Sound(right) && |Values(left)| + |Values(right)| <= 7
    ensures ReadAll(PartText(left) + "::" + PartText(right)) ==
            Some(Groups(Values(left) + Values(right), Some(|Values(left)|)))
  {
    hide ReadGroups, ReadDotted, IsHex, PartText, Values, Pieces;
    var s := PartText(left) + "::" + PartText(right);
    if left.groups == [] {
      assert left == Part([], None);
      EmptyPart(left);
      assert "" + "::" + PartText(right) == "::" + PartText(right);
      assert s[2..] == PartText(right);
      RightRead(Groups([], Some(0)), right);
    } else {
      GroupsArePieces(left);
      PartChars(left);
      HexMarks();
      assert s[0] == PartText(left)[0];
      GapRead(left, right, Groups([], None));
      assert [] + Values(left) == Values(left);
    }
  }

  lemma GappedReads(left: Part, right: Part)
    requires Sound(left) && left.tail.None? && Sound(right) && |Values(left)| + |Values(right)| <= 7
    ensures ReadColons(PartText(left) + "::" + PartText(right)) ==
            Some(GroupsValue(Values(left) + Zeros(8 - |Values(left)| - |Values(right)|) + Values(right)))
  {
    hide ReadGroups, GroupsValue, PartText, Values, Expand;
    GapAll(left, right);
    GapExpands(Values(left), Values(right));
  }

  /** Exactly these texts are read as colon addresses, and as exactly these numbers. */
  lemma ColonsExactly(s: string, n: nat)
    ensures ReadColons(s) == Some(n) <==> IsFull(s, n) || IsGapped(s, n)
  {
    hide ReadColons, PartText, Values, GroupsValue, Sound;
    if ReadColons(s) == Some(n) {
      ColonShape(s, n);
    }
    if IsFull(s, n) {
      var p: Part :| Sound(p) && s == PartText(p) && |Values(p)| == 8 && n == GroupsValue(Values(p));
      FullReads(p);
    }
    if IsGapped(s, n) {
      var left: Part, right: Part :|
        Sound(left) && left.tail.None? && Sound(right) && |Values(left)| + |Values(right)| <= 7 &&
        s == PartText(left) + "::" + PartText(right) &&
        n == GroupsValue(Values(left) + Zeros(8 - |Values(left)| - |Values(right)|) + Values(right));
      GappedReads(left, right);
    }
  }

  lemma ColonShape(s: string, n: nat)
    requires ReadColons(s) == Some(n)
    ensures IsFull(s, n) || IsGapped(s, n)
  {
    hide ReadGroups, PartText, Values, GroupsValue, ReadDotted;
    if s == "" {
      EmptyUnread();
    } else if "::" <= s {
      var left := Part([], None);
      EmptyPart(left);
      if s == "::" {
        assert s == PartText(left) + "::" + PartText(left);
        assert Values(left) + Zeros(8) + Values(left) == Zeros(8);
      } else {
        var h := ReadShape(s[2..], Groups([], Some(0)));
        assert s == PartText(left) + "::" + PartText(h.part);
        assert [] + Values(h.part) == Values(h.part);
        GapNumber(left, h.part, n);
      }
    } else {
      var h := ReadShape(s, Groups([], None));
      if h.Whole? {
        assert [] + Values(h.part) == Values(h.part);
      } else {
        assert [] + Values(h.left) + Values(h.right) == Values(h.left) + Values(h.right);
        GapNumber(h.left, h.right, n);
      }
    }
  }

  lemma EmptyUnread()
    ensures ReadColons("").None?
  {
  }

  lemma GapNumber(left: Part, right: Part, n: nat)
    requires Sound(left) && left.tail.None? && Sound(right)
    requires Expand(Groups(Values(left) + Values(right), Some(|Values(left)|))).Some?
    requires n == GroupsValue(Expand(Groups(Values(left) + Values(right), Some(|Values(left)|))).value)
    ensures IsGapped(PartText(left) + "::" + PartText(right), n)
  {
    hide PartText, GroupsValue, Values;
    assert |Values(left)| + |Values(right)| <= 7;
    GapExpands(Values(left), Values(right));
  }

  // ---- in front of a prefix length ----

  /** Colon addresses are IPv6 addresses. */
  lemma ColonAddress(s: string, n: nat)
    requires ReadColons(s) == Some(n)
    ensures ReadAddr(s) == Some(V6(n, "")) && '/' !in s
  {
    hide ReadColons, Notation, IndexOf;
    ColonChars(s, n);
    ColonNotation(s, n, "");
    assert s + "" == s;
  }

  /** A zone goes behind a percent sign. */
  lemma ZonedAddress(s: string, n: nat, zone: string)
    requires ReadColons(s) == Some(n) && zone != ""
    ensures ReadAddr(s + "%" + zone) == Some(V6(n, zone))
  {
    hide ReadColons, Notation, IndexOf, ReadDotted;
    var t := s + "%" + zone;
    ColonChars(s, n);
    ColonNotation(s, n, "%" + zone);
    assert s + ("%" + zone) == t;
    CutZone(s, zone);
  }

  lemma CutZone(s: string, zone: string)
    requires '%' !in s
    ensures var t := s + "%" + zone; IndexOf(t, '%') == |s| && t[..|s|] == s && t[|s| + 1..] == zone
  {
    hide IndexOf;
    assert s + "%" + zone == s + ['%'] + zone;
    IndexOfAt(s, '%', zone);
  }

  /** And nothing else is one: a colon address, or one with a percent sign and a zone that is not empty. */
  lemma ZonedExactly(t: string, n: nat, zone: string)
    ensures ReadAddr(t) == Some(V6(n, zone)) <==>
            exists s :: ReadColons(s) == Some(n) && if zone == "" then t == s else t == s + "%" + zone
  {
    hide ReadColons, Notation, IndexOf, ReadDotted;
    if ReadAddr(t) == Some(V6(n, zone)) {
      var at := IndexOf(t, '%');
      var s := if at < 0 then t else t[..at];
      assert at >= 0 ==> t == s + "%" + zone;
      assert ReadColons(s) == Some(n);
    }
    forall s | ReadColons(s) == Some(n) && if zone == "" then t == s else t == s + "%" + zone
      ensures ReadAddr(t) == Some(V6(n, zone))
    {
      if zone == "" {
        ColonAddress(s, n);
      } else {
        ZonedAddress(s, n, zone);
      }
    }
  }

  lemma ColonChars(s: string, n: nat)
    requires ReadColons(s) == Some(n)
    ensures '/' !in s && '%' !in s
  {
    hide ReadColons, PartText, Values, GroupsValue, IsHex, Sound;
    HexMarks();
    ColonsExactly(s, n);
    if IsFull(s, n) {
      var p: Part :| Sound(p) && s == PartText(p) && |Values(p)| == 8 && n == GroupsValue(Values(p));
      PartChars(p);
    } else {
      var left: Part, right: Part :|
        Sound(left) && left.tail.None? && Sound(right) && |Values(left)| + |Values(right)| <= 7 &&
        s == PartText(left) + "::" + PartText(right) &&
        n == GroupsValue(Values(left) + Zeros(8 - |Values(left)| - |Values(right)|) + Values(right));
      PartChars(left);
      PartChars(right);
    }
  }

  /** The first mark in the text is a colon. */
  lemma ColonNotation(s: string, n: nat, behind: string)
    requires ReadColons(s) == Some(n)
    ensures Notation(s + behind) == Some(':')
  {
    hide ReadColons, PartText, Values, GroupsValue, IsHex, Notation, Sound;
    ColonsExactly(s, n);
    if IsFull(s, n) {
      var p: Part :| Sound(p) && s == PartText(p) && |Values(p)| == 8 && n == GroupsValue(Values(p));
      FullNotation(p, behind);
    } else {
      var left: Part, right: Part :|
        Sound(left) && left.tail.None? && Sound(right) && |Values(left)| + |Values(right)| <= 7 &&
        s == PartText(left) + "::" + PartText(right) &&
        n == GroupsValue(Values(left) + Zeros(8 - |Values(left)| - |Values(right)|) + Values(right));
      LeftNotation(left, ":" + PartText(right) + behind);
      assert PartText(left) + ":" + (":" + PartText(right) + behind) == s + behind;
    }
  }

  lemma LeftNotation(left: Part, behind: string)
    requires Sound(left) && left.tail.None?
    ensures Notation(PartText(left) + ":" + behind) == Some(':')
  {
    hide IsHex, Notation, PartText, ReadDotted;
    HexMarks();
    if left.groups == [] {
      EmptyPart(left);
      NotationAt("", ':', behind);
      assert "" + ":" + behind == "" + [':'] + behind;
    } else {
      var t := left.groups[0];
      assert GroupText(t);
      LastPart(t);
      PartCases(left);
      if left == Part([t], None) {
        NotationAt(t, ':', behind);
        assert t + ":" + behind == t + [':'] + behind;
      } else {
        var rest := Part(left.groups[1..], None);
        MorePart(t, rest);
        NotationAt(t, ':', PartText(rest) + ":" + behind);
        assert t + ":" + PartText(rest) + ":" + behind == t + [':'] + (PartText(rest) + ":" + behind);
      }
    }
  }

  lemma FullNotation(p: Part, behind: string)
    requires Sound(p) && |Values(p)| == 8
    ensures Notation(PartText(p) + behind) == Some(':')
  {
    hide IsHex, Notation, PartText, ReadDotted;
    HexMarks();
    var t := p.groups[0];
    assert GroupText(t);
    PartCases(p);
    var rest := Part(p.groups[1..], p.tail);
    MorePart(t, rest);
    NotationAt(t, ':', PartText(rest) + behind);
    assert t + ":" + PartText(rest) + behind == t + [':'] + (PartText(rest) + behind);
  }

  /** An IPv4 address mapped into IPv6, as it is usually written: the scan sees its last octet. */
  lemma MappedText(a: nat, b: nat, c: nat, d: nat, mask: string)
    requires a <= 255 && b <= 255 && c <= 255 && d <= 255 && '/' !in mask
    ensures ReadAddr("::ffff:" + Dotted(a, b, c, d)) == Some(V6(0xFFFF_0000_0000 + Number(a, b, c, d), ""))
    ensures LastOctet("::ffff:" + Dotted(a, b, c, d) + "/" + mask) ==
            if mask != "" && Decimal.AllDigits(mask) && Decimal.DigitsValue(mask) <= 128 then Some(d) else None
  {
    hide ReadAddr, ReadColons, Dotted, LastOctet;
    var host, n := "::ffff:" + Dotted(a, b, c, d), 0xFFFF_0000_0000 + Number(a, b, c, d);
    MappedNumber(a, b, c, d);
    ColonAddress(host, n);
    MappedOctet(host, n, mask);
    assert n % 256 == d;
  }

  lemma MappedNumber(a: nat, b: nat, c: nat, d: nat)
    requires a <= 255 && b <= 255 && c <= 255 && d <= 255
    ensures ReadColons("::ffff:" + Dotted(a, b, c, d)) == Some(0xFFFF_0000_0000 + Number(a, b, c, d))
  {
    hide ReadColons, Dotted, HexValue, GroupsValue, ReadDotted, PartText;
    var dotted, n := Dotted(a, b, c, d), Number(a, b, c, d);
    var left, tail := Part([], None), Part([], Some(dotted));
    var right := More("ffff", tail);
    DottedReads(a, b, c, d);
    EmptyPart(left);
    DottedPart(dotted);
    TailIsPiece(dotted);
    FourFs();
    MorePart("ffff", tail);
    GappedReads(left, right);
    assert PartText(left) + "::" + PartText(right) == "::ffff:" + dotted;
    assert [0xFFFF] + TailValues(dotted) == [0xFFFF, n / 0x1_0000, n % 0x1_0000];
    MappedValue(n / 0x1_0000, n % 0x1_0000);
  }

  lemma FourFs()
    ensures GroupText("ffff") && HexValue("ffff") == 0xFFFF
  {
    hide HexValue;
    HexValueMeaning("", 'f');
    HexValueMeaning("f", 'f');
    HexValueMeaning("ff", 'f');
    HexValueMeaning("fff", 'f');
    assert "" + ['f'] == "f" && "f" + ['f'] == "ff" && "ff" + ['f'] == "fff" && "fff" + ['f'] == "ffff";
  }

  lemma MappedValue(hi: nat, lo: nat)
    ensures GroupsValue([] + Zeros(5) + [0xFFFF, hi, lo]) == 0xFFFF_0000_0000 + hi * 0x1_0000 + lo
  {
    hide GroupsValue;
    var z := Zeros(5);
    assert [] + z + [0xFFFF, hi, lo] == z + [0xFFFF] + [hi] + [lo];
    GroupsValueMeaning(z + [0xFFFF] + [hi], lo);
    GroupsValueMeaning(z + [0xFFFF], hi);
    GroupsValueMeaning(z, 0xFFFF);
    ZeroValue(5);
  }

  lemma {:induction false} ZeroValue(k: nat)
    ensures GroupsValue(Zeros(k)) == 0
  {
    if k > 0 {
      assert Zeros(k)[..k - 1] == Zeros(k - 1);
      ZeroValue(k - 1);
    }
  }
}
