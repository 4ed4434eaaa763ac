/** Every configuration can be written so that it parses to itself, in any layout; and which lines are refused. */
module ConfWrite {
  import opened Wrappers
  import opened Text
  import opened Cutting
  import opened WgConfig
  import opened ConfFile
  import Decimal

  // ---- one line, in any layout ----

  /** Blanks at the four places where they do not matter, and a comment. */
  datatype Layout = Layout(a: string, b: string, c: string, d: string, comment: Option<string>)

  predicate Blanks(l: Layout) {
    AllBlank(l.a) && AllBlank(l.b) && AllBlank(l.c) && AllBlank(l.d)
  }

  function CommentText(l: Layout): string {
    if l.comment.Some? then "#" + l.comment.value else ""
  }

  function WriteSetting(key: string, value: string, l: Layout): string {
    l.a + key + l.b + "=" + l.c + value + l.d + CommentText(l)
  }

  function WriteHeader(name: string, l: Layout): string {
    l.a + "[" + l.b + name + l.c + "]" + l.d + CommentText(l)
  }

  /** A text without blanks at its ends and without a comment mark. */
  predicate Plain(value: string) {
    Tight(value) && '#' !in value
  }

  /** The keys of the format, in any case. */
  predicate IsKey(key: string, keyword: string) {
    SameLetters(key, keyword)
  }

  /** The line makes this setting, whatever its layout and the case of its key. */
  ghost predicate Sets(line: string, keyword: string, value: string) {
    exists key: string, l: Layout {:trigger WriteSetting(key, value, l)} ::
      IsKey(key, keyword) && Blanks(l) && line == WriteSetting(key, value, l)
  }

  ghost predicate Heads(line: string, keyword: string) {
    exists name: string, l: Layout {:trigger WriteHeader(name, l)} ::
      IsKey(name, keyword) && Blanks(l) && line == WriteHeader(name, l)
  }

  lemma NoMarkInBlanks(s: string)
    requires AllBlank(s)
    ensures '#' !in s && '=' !in s && '[' !in s && ']' !in s
  {
    assert '#' !in BLANKS && '=' !in BLANKS && '[' !in BLANKS && ']' !in BLANKS;
  }

  /** A comment goes, and so do blanks around what is left. */
  lemma StripMeaning(a: string, t: string, d: string, l: Layout)
    requires AllBlank(a) && AllBlank(d) && Tight(t) && '#' !in t
    ensures StripLine(a + t + d + CommentText(l)) == t
  {
    hide IndexOf, TrimSpace;
    NoMarkInBlanks(a);
    NoMarkInBlanks(d);
    var s := a + t + d;
    TrimMeaning(a, t, d);
    if l.comment.Some? {
      assert s + CommentText(l) == s + ['#'] + l.comment.value;
      IndexOfAt(s, '#', l.comment.value);
      assert (s + CommentText(l))[..|s|] == s;
    } else {
      assert s + CommentText(l) == s;
    }
  }

  lemma TightParts(key: string, b: string, c: string, value: string)
    requires Plain(key) && key != "" && AllBlank(b) && AllBlank(c) && Plain(value)
    ensures '#' !in key + b + "=" + c + value
    ensures value != "" ==> Tight(key + b + "=" + c + value)
    ensures Tight(key + b + "=")
  {
    NoMarkInBlanks(b);
    NoMarkInBlanks(c);
    assert '=' !in BLANKS;
  }

  lemma BlanksJoin(c: string, d: string)
    requires AllBlank(c) && AllBlank(d)
    ensures AllBlank(c + d)
  {
  }

  /** What the parser sees of a setting line. */
  lemma SettingStripped(key: string, value: string, l: Layout)
    requires Plain(key) && key != "" && Plain(value) && Blanks(l)
    ensures StripLine(WriteSetting(key, value, l)) ==
            if value == "" then key + l.b + "=" else key + l.b + "=" + l.c + value
  {
    hide StripLine, Plain;
    TightParts(key, l.b, l.c, value);
    if value == "" {
      BlanksJoin(l.c, l.d);
      StripMeaning(l.a, key + l.b + "=", l.c + l.d, l);
      assert l.a + (key + l.b + "=") + (l.c + l.d) + CommentText(l) == WriteSetting(key, value, l);
    } else {
      StripMeaning(l.a, key + l.b + "=" + l.c + value, l.d, l);
      assert l.a + (key + l.b + "=" + l.c + value) + l.d + CommentText(l) == WriteSetting(key, value, l);
    }
  }

  lemma SidesOf(key: string, b: string, tail: string, value: string, c: string)
    requires Plain(key) && '=' !in key && AllBlank(b) && AllBlank(c) && Plain(value)
    requires tail == if value == "" then "" else c + value
    ensures var line := key + b + "=" + tail;
            var eq := IndexOf(line, '=');
            eq >= 0 && TrimSpace(line[..eq]) == key && TrimSpace(line[eq + 1..]) == value
  {
    hide IndexOf, TrimSpace;
    NoMarkInBlanks(b);
    var line := key + b + "=" + tail;
    assert line == (key + b) + ['='] + tail;
    IndexOfAt(key + b, '=', tail);
    assert line[..|key + b|] == key + b && line[|key + b| + 1..] == tail;
    TrimMeaning("", key, b);
    assert "" + key + b == key + b;
    TrimMeaning(c, value, "");
    TrimMeaning("", "", "");
    assert c + value + "" == c + value && "" + "" + "" == "";
  }

  /** In any layout, a setting line makes its setting and does nothing else. */
  lemma LineMeaning(st: ParserState, key: string, value: string, l: Layout)
    requires Plain(key) && key != "" && '=' !in key && key[0] != '[' && Plain(value) && Blanks(l)
    ensures Step(st, WriteSetting(key, value, l)) == Assign(st, key, value)
  {
    hide StripLine, Assign, IndexOf, TrimSpace, Plain, Blanks, HeaderName, EnterSection, WriteSetting;
    SettingStripped(key, value, l);
    var tail := if value == "" then "" else l.c + value;
    assert AllBlank(l.b) && AllBlank(l.c) by {
      PadsAreBlank(l);
    }
    SidesOf(key, l.b, tail, value, l.c);
    assert StripLine(WriteSetting(key, value, l)) == key + l.b + "=" + tail by {
      assert key + l.b + "=" + "" == key + l.b + "=";
      assert key + l.b + "=" + (l.c + value) == key + l.b + "=" + l.c + value;
    }
    assert (key + l.b + "=" + tail)[0] == key[0];
  }

  lemma PadsAreBlank(l: Layout)
    requires Blanks(l)
    ensures AllBlank(l.a) && AllBlank(l.b) && AllBlank(l.c) && AllBlank(l.d)
  {
  }

  /** In any layout and any case, a header is a header. */
  lemma HeaderMeaning(name: string, l: Layout, keyword: string)
    requires Blanks(l) && Plain(name) && SameLetters(name, keyword)
    ensures IsHeader(WriteHeader(name, l), ToLower(keyword))
  {
    hide StripLine, ToLower, TrimSpace, SameLetters;
    var t := "[" + l.b + name + l.c + "]";
    NoMarkInBlanks(l.b);
    NoMarkInBlanks(l.c);
    assert '[' !in BLANKS && ']' !in BLANKS;
    assert Tight(t) && '#' !in t;
    StripMeaning(l.a, t, l.d, l);
    assert l.a + t + l.d + CommentText(l) == WriteHeader(name, l);
    assert t[1..|t| - 1] == l.b + name + l.c;
    TrimMeaning(l.b, name, l.c);
    LowerMeaning(name, keyword);
  }

  // ---- what each setting does ----

  lemma KeywordsLowered()
    ensures ToLower("PublicKey") == "publickey" && ToLower("PresharedKey") == "presharedkey"
    ensures ToLower("AllowedIPs") == "allowedips" && ToLower("Endpoint") == "endpoint"
    ensures ToLower("PersistentKeepalive") == "persistentkeepalive"
    ensures ToLower("PrivateKey") == "privatekey" && ToLower("Address") == "address"
    ensures ToLower("ListenPort") == "listenport" && ToLower("peer") == "peer" && ToLower("interface") == "interface"
  {
    hide ToLower;
    PeerWordsLowered();
    LongWordLowered();
    InterfaceWordsLowered();
  }

  lemma PeerWordsLowered()
    ensures ToLower("PublicKey") == "publickey" && ToLower("PresharedKey") == "presharedkey"
    ensures ToLower("AllowedIPs") == "allowedips" && ToLower("Endpoint") == "endpoint"
  {
  }

  lemma LongWordLowered()
    ensures ToLower("PersistentKeepalive") == "persistentkeepalive"
  {
  }

  lemma InterfaceWordsLowered()
    ensures ToLower("PrivateKey") == "privatekey" && ToLower("Address") == "address"
    ensures ToLower("ListenPort") == "listenport" && ToLower("peer") == "peer" && ToLower("interface") == "interface"
  {
  }

  lemma KeywordsDiffer()
    ensures "publickey" != "presharedkey" && "publickey" != "allowedips" && "publickey" != "endpoint"
    ensures "publickey" != "persistentkeepalive" && "presharedkey" != "allowedips" && "presharedkey" != "endpoint"
    ensures "presharedkey" != "persistentkeepalive" && "allowedips" != "endpoint"
    ensures "allowedips" != "persistentkeepalive" && "endpoint" != "persistentkeepalive"
    ensures "privatekey" != "address" && "privatekey" != "listenport" && "address" != "listenport"
  {
    assert "publickey"[1] == 'u' && "presharedkey"[1] == 'r' && "persistentkeepalive"[1] == 'e';
    assert "privatekey"[0] == 'p' && "address"[0] == 'a' && "listenport"[0] == 'l';
    assert "allowedips"[0] == 'a' && "endpoint"[0] == 'e';
  }

  /** Where the value of each key of a peer section goes, and the one value that is refused. */
  lemma PeerSettings(st: ParserState, key: string, keyword: string, value: string)
    requires st.section == InPeer && st.pending.Some? && SameLetters(key, keyword)
    ensures var p := st.pending.value;
            (keyword == "PublicKey" ==> Assign(st, key, value) == Ok(st.(pending := Some(p.(publicKey := value))))) &&
            (keyword == "PresharedKey" ==>
               Assign(st, key, value) == Ok(st.(pending := Some(p.(presharedKey := value))))) &&
            (keyword == "Endpoint" ==> Assign(st, key, value) == Ok(st.(pending := Some(p.(endpoint := value))))) &&
            (keyword == "PersistentKeepalive" ==>
               Assign(st, key, value) ==
               match Decimal.Atoi(value)
               case None => Err(InvalidKeepalive(value))
               case Some(seconds) => Ok(st.(pending := Some(p.(keepalive := seconds))))) &&
            (keyword == "AllowedIPs" ==>
               Assign(st, key, value) ==
               Ok(st.(pending := Some(p.(allowedIPs := p.allowedIPs + Addresses(Split(value, ',')))))))
  {
    hide Decimal.Atoi, Split, ToLower, Addresses, SameLetters;
    LowerMeaning(key, keyword);
    KeywordsLowered();
    KeywordsDiffer();
  }

  /** Where the value of each key of an interface section goes, and which values are refused. */
  lemma InterfaceSettings(st: ParserState, key: string, keyword: string, value: string)
    requires st.section == InInterface && SameLetters(key, keyword)
    ensures (keyword == "PrivateKey" ==> Assign(st, key, value) == Ok(st.(iface := st.iface.(privateKey := value))))
    ensures (keyword == "Address" ==> Assign(st, key, value) == Ok(st.(iface := st.iface.(address := value))))
    ensures (keyword == "ListenPort" ==>
               Assign(st, key, value) ==
               match Decimal.Atoi(TrimSpace(value))
               case None => Err(InvalidListenPort(value))
               case Some(port) =>
                 if 1 <= port <= 65535 then Ok(st.(iface := st.iface.(listenPort := port)))
                 else Err(ListenPortOutOfRange(port)))
  {
    hide Decimal.Atoi, TrimSpace, ToLower, SameLetters;
    LowerMeaning(key, keyword);
    KeywordsLowered();
    KeywordsDiffer();
  }

  /** In front of any header, and under a header of another name, settings are ignored. */
  lemma OtherSections(st: ParserState, key: string, value: string)
    requires st.section == NoSection || st.section == InUnknown
    ensures Assign(st, key, value) == Ok(st)
  {
  }

  /** A header of another name ends the section before it, and the 101st peer is refused. */
  lemma HeadersMean(st: ParserState, raw: string)
    requires IsBracketed(StripLine(raw))
    ensures IsPeerHeader(raw) ==>
              Step(st, raw) ==
              if |st.Peers()| >= 100 then Err(TooManyPeers)
              else Ok(ParserState(InPeer, Some(EMPTY_PEER), st.iface, st.Peers()))
    ensures IsInterfaceHeader(raw) ==> Step(st, raw) == Ok(ParserState(InInterface, None, st.iface, st.Peers()))
    ensures !IsPeerHeader(raw) && !IsInterfaceHeader(raw) ==>
              Step(st, raw) == Ok(ParserState(InUnknown, None, st.iface, st.Peers()))
  {
    hide StripLine, HeaderName;
  }

  /** A line that is neither a header nor a setting says nothing. */
  lemma OtherLines(st: ParserState, raw: string)
    requires !IsBracketed(StripLine(raw)) && '=' !in StripLine(raw)
    ensures Step(st, raw) == Ok(st)
  {
    hide StripLine, HeaderName;
  }

  /** A key that is none of the five of a peer section is ignored there. */
  lemma OtherPeerKeys(st: ParserState, key: string, value: string)
    requires st.section == InPeer && st.pending.Some?
    requires !SameLetters(key, "PublicKey") && !SameLetters(key, "PresharedKey") && !SameLetters(key, "Endpoint")
    requires !SameLetters(key, "PersistentKeepalive") && !SameLetters(key, "AllowedIPs")
    ensures Assign(st, key, value) == Ok(st)
  {
    hide ToLower, SameLetters;
    KeywordsLowered();
    LowerMeaning(key, "PublicKey");
    LowerMeaning(key, "PresharedKey");
    LowerMeaning(key, "Endpoint");
    LowerMeaning(key, "PersistentKeepalive");
    LowerMeaning(key, "AllowedIPs");
  }

  /** So is one that is none of the three of an interface section. */
  lemma OtherInterfaceKeys(st: ParserState, key: string, value: string)
    requires st.section == InInterface
    requires !SameLetters(key, "PrivateKey") && !SameLetters(key, "Address") && !SameLetters(key, "ListenPort")
    ensures Assign(st, key, value) == Ok(st)
  {
    hide ToLower, SameLetters;
    KeywordsLowered();
    LowerMeaning(key, "PrivateKey");
    LowerMeaning(key, "Address");
    LowerMeaning(key, "ListenPort");
  }

  /** Every line is what the parser sees of it, between blanks and in front of a comment. */
  lemma StripParts(raw: string) returns (a: string, d: string, l: Layout)
    ensures raw == a + StripLine(raw) + d + CommentText(l)
    ensures AllBlank(a) && AllBlank(d) && Tight(StripLine(raw)) && '#' !in StripLine(raw)
  {
    hide TrimSpace, Tight, AllBlank, CommentText;
    var before, cut := CutComment(raw);
    l := cut;
    TrimSpaceChars(before);
    a, d := TrimParts(before);
  }

  lemma CutComment(raw: string) returns (before: string, l: Layout)
    ensures raw == before + CommentText(l) && '#' !in before && StripLine(raw) == TrimSpace(before)
  {
    hide TrimSpace;
    var at := IndexOf(raw, '#');
    before := if at >= 0 then raw[..at] else raw;
    l := Layout("", "", "", "", if at >= 0 then Some(raw[at + 1..]) else None);
  }

  /** A line is a header of that name exactly if it is the bracketed name, in some layout and some case. */
  lemma HeadersExactly(raw: string, keyword: string)
    requires keyword != "" && forall i :: 0 <= i < |keyword| ==> IsLetter(keyword[i])
    ensures IsHeader(raw, ToLower(keyword)) <==> Heads(raw, keyword)
  {
    hide StripLine, TrimSpace, ToLower, SameLetters, WriteHeader, Plain, IsHeader;
    if Heads(raw, keyword) {
      HeadsMeaning(raw, keyword);
    } else if IsHeader(raw, ToLower(keyword)) {
      HeaderLayout(raw, keyword);
    }
  }

  lemma HeaderLayout(raw: string, keyword: string)
    requires IsHeader(raw, ToLower(keyword))
    ensures Heads(raw, keyword)
  {
    hide StripLine, TrimSpace, ToLower, SameLetters, WriteHeader, CommentText, Heads, Tight;
    var a, d, l := StripParts(raw);
    var t := StripLine(raw);
    var b, c := TrimParts(t[1..|t| - 1]);
    var name := TrimSpace(t[1..|t| - 1]);
    LowerMeaning(name, keyword);
    var full := Layout(a, b, c, d, l.comment);
    Bracketed(t);
    SameComment(full, l);
    HeaderPieces(full, name);
    HeadsBy(raw, keyword, name, full);
  }

  lemma Bracketed(t: string)
    requires IsBracketed(t) && |t| >= 2
    ensures t == "[" + t[1..|t| - 1] + "]"
  {
  }

  lemma HeaderPieces(l: Layout, name: string)
    ensures WriteHeader(name, l) == l.a + ("[" + (l.b + name + l.c) + "]") + l.d + CommentText(l)
  {
  }

  lemma HeadsBy(raw: string, keyword: string, name: string, l: Layout)
    requires IsKey(name, keyword) && Blanks(l) && raw == WriteHeader(name, l)
    ensures Heads(raw, keyword)
  {
    hide WriteHeader, IsKey, Blanks;
  }

  /** Every line with an equals sign that is not bracketed is a setting line, in some layout. */
  lemma SettingLayout(st: ParserState, raw: string) returns (key: string, value: string, l: Layout)
    requires !IsBracketed(StripLine(raw)) && '=' in StripLine(raw)
    ensures Blanks(l) && Plain(key) && Plain(value) && '=' !in key && raw == WriteSetting(key, value, l)
    ensures Step(st, raw) == Assign(st, key, value)
  {
    hide StripLine, TrimSpace, Assign, HeaderName, WriteSetting, CommentText, Tight;
    var a, d, strip := StripParts(raw);
    var t := StripLine(raw);
    var eq := IndexOf(t, '=');
    key, value := TrimSpace(t[..eq]), TrimSpace(t[eq + 1..]);
    var a1, b := TrimParts(t[..eq]);
    var c, d1 := TrimParts(t[eq + 1..]);
    TrimSpaceChars(t[..eq]);
    TrimSpaceChars(t[eq + 1..]);
    BlanksJoin(a, a1);
    BlanksJoin(d1, d);
    l := Layout(a + a1, b, c, d1 + d, strip.comment);
    AroundEquals(t, eq);
    assert CommentText(l) == CommentText(strip) by {
      SameComment(l, strip);
    }
    SettingPieces(a, a1, key, b, c, value, d1, d, l);
  }

  lemma SameComment(l: Layout, k: Layout)
    requires l.comment == k.comment
    ensures CommentText(l) == CommentText(k)
  {
  }

  lemma AroundEquals(t: string, eq: nat)
    requires eq < |t| && t[eq] == '='
    ensures t == t[..eq] + "=" + t[eq + 1..]
  {
  }

  lemma SettingPieces(a: string, a1: string, key: string, b: string, c: string, value: string, d1: string, d: string,
                      l: Layout)
    requires l.a == a + a1 && l.b == b && l.c == c && l.d == d1 + d
    ensures WriteSetting(key, value, l) == a + ((a1 + key + b) + "=" + (c + value + d1)) + d + CommentText(l)
  {
  }

  // ---- address lists ----

  /** Entries of a list, each with blanks around it. */
  predicate ListWritten(pieces: seq<string>, cidrs: seq<string>) {
    |pieces| == |cidrs| && forall i :: 0 <= i < |pieces| ==> TrimSpace(pieces[i]) == cidrs[i]
  }

  lemma {:induction false} ListMeaning(pieces: seq<string>, cidrs: seq<string>)
    requires ListWritten(pieces, cidrs) && forall i :: 0 <= i < |cidrs| ==> cidrs[i] != ""
    ensures Addresses(pieces) == cidrs
    decreases |pieces|
  {
    hide TrimSpace;
    if pieces != [] {
      ListMeaning(pieces[1..], cidrs[1..]);
      assert cidrs == [cidrs[0]] + cidrs[1..];
    }
  }

  /** An address that can stand in a list. */
  predicate Listable(cidr: string) {
    Plain(cidr) && cidr != "" && ',' !in cidr && '\n' !in cidr
  }

  predicate AllListable(cidrs: seq<string>) {
    forall i :: 0 <= i < |cidrs| ==> Listable(cidrs[i])
  }

  lemma TightTrims(s: string)
    requires Tight(s)
    ensures TrimSpace(s) == s
  {
    TrimMeaning("", s, "");
    assert "" + s + "" == s;
  }

  lemma JoinedList(cidrs: seq<string>)
    requires AllListable(cidrs)
    ensures Addresses(Split(Join(cidrs, ','), ',')) == cidrs
  {
    hide Split, Join, TrimSpace;
    if cidrs == [] {
      NoList();
    } else {
      SplitJoin(cidrs, ',');
      forall i | 0 <= i < |cidrs| ensures TrimSpace(cidrs[i]) == cidrs[i] {
        assert Listable(cidrs[i]);
        TightTrims(cidrs[i]);
      }
      ListMeaning(cidrs, cidrs);
    }
  }

  lemma NoList()
    ensures Addresses(Split(Join([], ','), ',')) == []
  {
    assert Join([], ',') == "";
    SplitWhole("", ',');
    assert [""][1..] == [];
    TightTrims("");
  }

  lemma {:induction false} JoinIsPlain(cidrs: seq<string>)
    requires AllListable(cidrs)
    ensures Plain(Join(cidrs, ',')) && '\n' !in Join(cidrs, ',')
    ensures cidrs != [] ==> Join(cidrs, ',') != "" && Join(cidrs, ',')[0] == cidrs[0][0]
  {
    if |cidrs| == 1 {
      assert Listable(cidrs[0]);
      assert Join(cidrs, ',') == cidrs[0];
    } else if cidrs != [] {
      assert Listable(cidrs[0]);
      JoinIsPlain(cidrs[1..]);
      var rest := Join(cidrs[1..], ',');
      assert Join(cidrs, ',') == cidrs[0] + [','] + rest;
      assert (cidrs[0] + [','] + rest)[|cidrs[0]| + 1 + |rest| - 1] == rest[|rest| - 1];
    }
  }

  // ---- whole sections ----

  /** Values that can be written on a line. */
  predicate PlainPeer(p: PeerConfig) {
    && Plain(p.publicKey) && Plain(p.presharedKey) && Plain(p.endpoint)
    && AllListable(p.allowedIPs)
    && Decimal.MIN_INT <= p.keepalive <= Decimal.MAX_INT
  }

  ghost predicate PeerWritten(block: seq<string>, p: PeerConfig) {
    && |block| == 6
    && Heads(block[0], "peer")
    && Sets(block[1], "PublicKey", p.publicKey)
    && Sets(block[2], "PresharedKey", p.presharedKey)
    && Sets(block[3], "AllowedIPs", Join(p.allowedIPs, ','))
    && Sets(block[4], "Endpoint", p.endpoint)
    && Sets(block[5], "PersistentKeepalive", Decimal.FormatInt(p.keepalive))
  }

  lemma KeyFacts(key: string, keyword: string)
    requires SameLetters(key, keyword) && keyword != "" && forall i :: 0 <= i < |keyword| ==> IsLetter(keyword[i])
    ensures Plain(key) && key != "" && '=' !in key && key[0] != '['
  {
    hide IsLetter, SameLetter;
    forall i | 0 <= i < |key| ensures IsLetter(key[i]) {
      if key[i] != keyword[i] {
        SameIsLetter(key[i], keyword[i]);
      }
    }
    LettersArePlain(key);
  }

  predicate IsLetter(c: char) {
    'a' <= c <= 'z' || 'A' <= c <= 'Z'
  }

  lemma SameIsLetter(c: char, d: char)
    requires SameLetter(c, d)
    ensures IsLetter(c)
  {
    var k :| 0 <= k < 26 && (c == UPPER[k] || c == LOWER[k]) && (d == UPPER[k] || d == LOWER[k]);
    Alphabet(k);
  }

  lemma LettersArePlain(s: string)
    requires s != "" && forall i :: 0 <= i < |s| ==> IsLetter(s[i])
    ensures Plain(s) && '=' !in s && s[0] != '['
  {
    assert forall c :: c in BLANKS ==> !IsLetter(c);
  }

  lemma SetsMeaning(st: ParserState, line: string, keyword: string, value: string) returns (key: string)
    requires Sets(line, keyword, value) && Plain(value)
    requires keyword != "" && forall i :: 0 <= i < |keyword| ==> IsLetter(keyword[i])
    ensures SameLetters(key, keyword) && Step(st, line) == Assign(st, key, value)
  {
    hide Step, Assign, Plain, SameLetters, Blanks, WriteSetting;
    var k: string, l: Layout :| IsKey(k, keyword) && Blanks(l) && line == WriteSetting(k, value, l);
    KeyFacts(k, keyword);
    LineMeaning(st, k, value, l);
    key := k;
  }

  lemma HeadsMeaning(line: string, keyword: string)
    requires Heads(line, keyword)
    requires keyword != "" && forall i :: 0 <= i < |keyword| ==> IsLetter(keyword[i])
    ensures IsHeader(line, ToLower(keyword))
  {
    hide Plain, SameLetters, Blanks, WriteHeader, IsHeader, ToLower;
    var name: string, l: Layout :| IsKey(name, keyword) && Blanks(l) && line == WriteHeader(name, l);
    KeyFacts(name, keyword);
    HeaderMeaning(name, l, keyword);
  }

  lemma IntIsPlain(n: int)
    ensures Plain(Decimal.FormatInt(n)) && '\n' !in Decimal.FormatInt(n) && Decimal.FormatInt(n) != ""
  {
    hide Decimal.FormatNat;
    assert forall c :: c in BLANKS ==> !Decimal.IsDigit(c) && c != '-';
  }

  lemma RunSix(a: ParserState, b: ParserState, c: ParserState, d: ParserState, e: ParserState, f: ParserState,
               g: ParserState, lines: seq<string>)
    requires |lines| == 6
    requires Step(a, lines[0]) == Ok(b) && Step(b, lines[1]) == Ok(c) && Step(c, lines[2]) == Ok(d)
    requires Step(d, lines[3]) == Ok(e) && Step(e, lines[4]) == Ok(f) && Step(f, lines[5]) == Ok(g)
    ensures Run(a, lines) == Ok(g)
  {
    hide Step;
    assert lines[5..][1..] == [] && Run(f, lines[5..]) == Ok(g);
    assert lines[4..][1..] == lines[5..] && Run(e, lines[4..]) == Ok(g);
    assert lines[3..][1..] == lines[4..] && Run(d, lines[3..]) == Ok(g);
    assert lines[2..][1..] == lines[3..] && Run(c, lines[2..]) == Ok(g);
    assert lines[1..][1..] == lines[2..] && Run(b, lines[1..]) == Ok(g);
  }

  /** Six lines for a peer, in any layout and with keys in any case, give exactly that peer. */
  lemma PeerRoundTrip(st: ParserState, block: seq<string>, p: PeerConfig)
    requires PlainPeer(p) && PeerWritten(block, p) && |st.Peers()| < 100
    ensures Run(st, block) == Ok(ParserState(InPeer, Some(p), st.iface, st.Peers()))
  {
    hide Step, Assign, Plain, Sets, Heads, SameLetters, IsHeader, Decimal.FormatInt, Decimal.Atoi, Split, Join,
         Addresses;
    var s1 := ParserState(InPeer, Some(EMPTY_PEER), st.iface, st.Peers());
    HeadsMeaning(block[0], "peer");
    KeywordsLowered();
    HeaderIsBracketed(block[0], "peer");
    HeadersMean(st, block[0]);
    var k1 := SetsMeaning(s1, block[1], "PublicKey", p.publicKey);
    PeerSettings(s1, k1, "PublicKey", p.publicKey);
    var s2 := s1.(pending := Some(EMPTY_PEER.(publicKey := p.publicKey)));
    var k2 := SetsMeaning(s2, block[2], "PresharedKey", p.presharedKey);
    PeerSettings(s2, k2, "PresharedKey", p.presharedKey);
    var s3 := s2.(pending := Some(s2.pending.value.(presharedKey := p.presharedKey)));
    JoinIsPlain(p.allowedIPs);
    JoinedList(p.allowedIPs);
    var k3 := SetsMeaning(s3, block[3], "AllowedIPs", Join(p.allowedIPs, ','));
    PeerSettings(s3, k3, "AllowedIPs", Join(p.allowedIPs, ','));
    assert [] + p.allowedIPs == p.allowedIPs;
    var s4 := s3.(pending := Some(s3.pending.value.(allowedIPs := p.allowedIPs)));
    var k4 := SetsMeaning(s4, block[4], "Endpoint", p.endpoint);
    PeerSettings(s4, k4, "Endpoint", p.endpoint);
    var s5 := s4.(pending := Some(s4.pending.value.(endpoint := p.endpoint)));
    IntIsPlain(p.keepalive);
    Decimal.AtoiFormat(p.keepalive);
    var k5 := SetsMeaning(s5, block[5], "PersistentKeepalive", Decimal.FormatInt(p.keepalive));
    PeerSettings(s5, k5, "PersistentKeepalive", Decimal.FormatInt(p.keepalive));
    RunSix(st, s1, s2, s3, s4, s5, ParserState(InPeer, Some(p), st.iface, st.Peers()), block);
  }

  lemma HeaderIsBracketed(raw: string, name: string)
    requires IsHeader(raw, name)
    ensures IsBracketed(StripLine(raw))
  {
    hide StripLine, HeaderName;
  }

  predicate PlainInterface(iface: InterfaceConfig) {
    Plain(iface.privateKey) && Plain(iface.address) && 1 <= iface.listenPort <= 65535
  }

  ghost predicate InterfaceWritten(head: seq<string>, iface: InterfaceConfig) {
    && |head| == 4
    && Heads(head[0], "interface")
    && Sets(head[1], "PrivateKey", iface.privateKey)
    && Sets(head[2], "Address", iface.address)
    && Sets(head[3], "ListenPort", Decimal.FormatInt(iface.listenPort))
  }

  lemma RunFour(a: ParserState, b: ParserState, c: ParserState, d: ParserState, e: ParserState, lines: seq<string>)
    requires |lines| == 4
    requires Step(a, lines[0]) == Ok(b) && Step(b, lines[1]) == Ok(c) && Step(c, lines[2]) == Ok(d)
    requires Step(d, lines[3]) == Ok(e)
    ensures Run(a, lines) == Ok(e)
  {
    hide Step;
    assert lines[3..][1..] == [] && Run(d, lines[3..]) == Ok(e);
    assert lines[2..][1..] == lines[3..] && Run(c, lines[2..]) == Ok(e);
    assert lines[1..][1..] == lines[2..] && Run(b, lines[1..]) == Ok(e);
  }

  /** Four lines for an interface, in any layout and with keys in any case, give exactly that interface. */
  lemma InterfaceRoundTrip(head: seq<string>, iface: InterfaceConfig)
    requires PlainInterface(iface) && InterfaceWritten(head, iface)
    ensures Run(START, head) == Ok(ParserState(InInterface, None, iface, []))
  {
    hide Step, Assign, Plain, Sets, Heads, SameLetters, IsHeader, Decimal.FormatInt, Decimal.Atoi, TrimSpace;
    var s1 := ParserState(InInterface, None, EMPTY_INTERFACE, []);
    HeadsMeaning(head[0], "interface");
    KeywordsLowered();
    HeaderIsBracketed(head[0], "interface");
    HeadersMean(START, head[0]);
    var k1 := SetsMeaning(s1, head[1], "PrivateKey", iface.privateKey);
    InterfaceSettings(s1, k1, "PrivateKey", iface.privateKey);
    var s2 := s1.(iface := EMPTY_INTERFACE.(privateKey := iface.privateKey));
    var k2 := SetsMeaning(s2, head[2], "Address", iface.address);
    InterfaceSettings(s2, k2, "Address", iface.address);
    var s3 := s2.(iface := s2.iface.(address := iface.address));
    var port := Decimal.FormatInt(iface.listenPort);
    IntIsPlain(iface.listenPort);
    PlainTrims(port);
    Decimal.AtoiFormat(iface.listenPort);
    var k3 := SetsMeaning(s3, head[3], "ListenPort", port);
    InterfaceSettings(s3, k3, "ListenPort", port);
    RunFour(START, s1, s2, s3, ParserState(InInterface, None, iface, []), head);
  }

  lemma PlainTrims(s: string)
    requires Plain(s)
    ensures TrimSpace(s) == s
  {
    hide TrimSpace;
    TightTrims(s);
  }

  // ---- whole files ----

  ghost predicate PeersWritten(blocks: seq<seq<string>>, peers: seq<PeerConfig>) {
    |blocks| == |peers| && forall i :: 0 <= i < |peers| ==> PlainPeer(peers[i]) && PeerWritten(blocks[i], peers[i])
  }

  lemma {:induction false} PeersRoundTrip(st: ParserState, blocks: seq<seq<string>>, peers: seq<PeerConfig>)
    requires PeersWritten(blocks, peers) && |st.Peers()| + |peers| <= 100
    ensures var r := Run(st, Flatten(blocks));
            r.Ok? && r.value.iface == st.iface && r.value.Peers() == st.Peers() + peers
    decreases |blocks|
  {
    hide PlainPeer, PeerWritten, Step;
    if blocks != [] {
      var next := ParserState(InPeer, Some(peers[0]), st.iface, st.Peers());
      PeerRoundTrip(st, blocks[0], peers[0]);
      RunConcat(st, blocks[0], Flatten(blocks[1..]));
      PeersRoundTrip(next, blocks[1..], peers[1..]);
      assert st.Peers() + [peers[0]] + peers[1..] == st.Peers() + peers;
    } else {
      assert st.Peers() + peers == st.Peers();
    }
  }

  /**
   * A text that writes out an interface and up to a hundred peers, each setting on a line of its own in any layout,
   * parses to exactly that configuration: every value is stored under its own key, and no other.
   */
  lemma ConfigRoundTrip(content: string, head: seq<string>, blocks: seq<seq<string>>, cfg: Config)
    requires Split(content, '\n') == head + Flatten(blocks)
    requires PlainInterface(cfg.iface) && InterfaceWritten(head, cfg.iface)
    requires PeersWritten(blocks, cfg.peers) && |cfg.peers| <= 100
    ensures Parse(content) == Ok(cfg)
  {
    hide PlainInterface, InterfaceWritten, PlainPeer, PeerWritten, Step, Parse, Split, Run;
    ParseSplit(content);
    RunConcat(START, head, Flatten(blocks));
    InterfaceRoundTrip(head, cfg.iface);
    PeersRoundTrip(ParserState(InInterface, None, cfg.iface, []), blocks, cfg.peers);
    assert [] + cfg.peers == cfg.peers;
  }

  // ---- the plain layout ----

  const USUAL := Layout("", " ", " ", "", None)
  const BARE := Layout("", "", "", "", None)

  function PeerLinesOf(p: PeerConfig): seq<string> {
    ["[Peer]", "PublicKey = " + p.publicKey, "PresharedKey = " + p.presharedKey,
     "AllowedIPs = " + Join(p.allowedIPs, ','), "Endpoint = " + p.endpoint,
     "PersistentKeepalive = " + Decimal.FormatInt(p.keepalive)]
  }

  function InterfaceLinesOf(iface: InterfaceConfig): seq<string> {
    ["[Interface]", "PrivateKey = " + iface.privateKey, "Address = " + iface.address,
     "ListenPort = " + Decimal.FormatInt(iface.listenPort)]
  }

  function BlocksFor(peers: seq<PeerConfig>): (r: seq<seq<string>>)
    ensures |r| == |peers| && forall i :: 0 <= i < |r| ==> r[i] == PeerLinesOf(peers[i])
  {
    seq(|peers|, i requires 0 <= i < |peers| => PeerLinesOf(peers[i]))
  }

  function ConfigText(cfg: Config): string {
    Join(InterfaceLinesOf(cfg.iface) + Flatten(BlocksFor(cfg.peers)), '\n')
  }

  lemma SetsUsual(keyword: string, value: string)
    ensures Sets(keyword + " = " + value, keyword, value)
  {
    assert keyword + " = " + value == WriteSetting(keyword, value, USUAL);
    assert IsKey(keyword, keyword) && Blanks(USUAL);
  }

  lemma HeadsUsual()
    ensures Heads("[Peer]", "peer") && Heads("[Interface]", "interface")
  {
    assert "[Peer]" == WriteHeader("Peer", BARE) && "[Interface]" == WriteHeader("Interface", BARE);
    assert UPPER[15] == 'P' && LOWER[15] == 'p' && UPPER[8] == 'I' && LOWER[8] == 'i';
    assert SameLetter('P', 'p') && SameLetter('I', 'i');
    assert IsKey("Peer", "peer") && IsKey("Interface", "interface");
  }

  predicate NoBreaks(cfg: Config) {
    && '\n' !in cfg.iface.privateKey && '\n' !in cfg.iface.address
    && forall i :: 0 <= i < |cfg.peers| ==>
         '\n' !in cfg.peers[i].publicKey && '\n' !in cfg.peers[i].presharedKey && '\n' !in cfg.peers[i].endpoint
  }

  predicate Writable(cfg: Config) {
    && PlainInterface(cfg.iface) && |cfg.peers| <= 100 && NoBreaks(cfg)
    && forall i :: 0 <= i < |cfg.peers| ==> PlainPeer(cfg.peers[i])
  }

  /** Every configuration of plain values, written line by line, parses to itself. */
  lemma WrittenParses(cfg: Config)
    requires Writable(cfg)
    ensures Parse(ConfigText(cfg)) == Ok(cfg)
  {
    hide PlainInterface, PlainPeer, Parse, Split, Join, PeerLinesOf, InterfaceLinesOf, Flatten, InterfaceWritten,
         PeerWritten;
    var head, blocks := InterfaceLinesOf(cfg.iface), BlocksFor(cfg.peers);
    InterfaceIsWritten(cfg.iface);
    forall i | 0 <= i < |cfg.peers| ensures PeerWritten(blocks[i], cfg.peers[i]) {
      PeerIsWritten(cfg.peers[i]);
    }
    forall line | line in head + Flatten(blocks) ensures '\n' !in line {
      LinesAreClean(cfg, line);
    }
    HeadNotEmpty(cfg.iface);
    SplitJoin(head + Flatten(blocks), '\n');
    ConfigRoundTrip(ConfigText(cfg), head, blocks, cfg);
  }

  lemma HeadNotEmpty(iface: InterfaceConfig)
    ensures InterfaceLinesOf(iface) != []
  {
  }

  lemma InterfaceIsWritten(iface: InterfaceConfig)
    ensures InterfaceWritten(InterfaceLinesOf(iface), iface)
  {
    hide Sets, Heads;
    HeadsUsual();
    SetsUsual("PrivateKey", iface.privateKey);
    SetsUsual("Address", iface.address);
    SetsUsual("ListenPort", Decimal.FormatInt(iface.listenPort));
    assert "PrivateKey" + " = " == "PrivateKey = " && "Address" + " = " == "Address = ";
    assert "ListenPort" + " = " == "ListenPort = ";
    assert InterfaceLinesOf(iface)[0] == "[Interface]";
  }

  lemma PeerIsWritten(p: PeerConfig)
    ensures PeerWritten(PeerLinesOf(p), p)
  {
    hide Sets, Heads;
    HeadsUsual();
    SetsUsual("PublicKey", p.publicKey);
    SetsUsual("PresharedKey", p.presharedKey);
    SetsUsual("AllowedIPs", Join(p.allowedIPs, ','));
    SetsUsual("Endpoint", p.endpoint);
    SetsUsual("PersistentKeepalive", Decimal.FormatInt(p.keepalive));
    assert "PublicKey" + " = " == "PublicKey = " && "PresharedKey" + " = " == "PresharedKey = ";
    assert "AllowedIPs" + " = " == "AllowedIPs = " && "Endpoint" + " = " == "Endpoint = ";
    assert "PersistentKeepalive" + " = " == "PersistentKeepalive = ";
    assert PeerLinesOf(p)[0] == "[Peer]";
  }

  lemma LinesAreClean(cfg: Config, line: string)
    requires Writable(cfg) && line in InterfaceLinesOf(cfg.iface) + Flatten(BlocksFor(cfg.peers))
    ensures '\n' !in line
  {
    hide Flatten, PlainPeer, PeerLinesOf;
    if line in InterfaceLinesOf(cfg.iface) {
      IntIsPlain(cfg.iface.listenPort);
    } else {
      LineOfBlock(BlocksFor(cfg.peers), line);
      var i :| 0 <= i < |cfg.peers| && line in BlocksFor(cfg.peers)[i];
      PeerLineClean(cfg.peers[i], line);
    }
  }

  lemma PeerLineClean(p: PeerConfig, line: string)
    requires PlainPeer(p) && line in PeerLinesOf(p)
    requires '\n' !in p.publicKey && '\n' !in p.presharedKey && '\n' !in p.endpoint
    ensures '\n' !in line
  {
    hide Plain, Join, Decimal.FormatInt, AllListable;
    IntIsPlain(p.keepalive);
    JoinIsPlain(p.allowedIPs);
  }

  lemma {:induction false} LineOfBlock(blocks: seq<seq<string>>, line: string)
    requires line in Flatten(blocks)
    ensures exists i :: 0 <= i < |blocks| && line in blocks[i]
  {
    if line !in blocks[0] {
      LineOfBlock(blocks[1..], line);
      var i :| 0 <= i < |blocks[1..]| && line in blocks[1..][i];
      assert line in blocks[i + 1];
    }
  }
}
