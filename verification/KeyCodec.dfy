/** Standard base64 and lowercase hex (sections 4 and 8 of RFC 4648), as the WireGuard keys use them. */
module KeyCodec {
  import opened Text
  import opened Wrappers

  type byte = x: int | 0 <= x < 256

  type sextet = x: int | 0 <= x < 64

  const KEY_LENGTH := 32

  // ---- base64 ----

  function SextetChar(v: sextet): (c: char)
    ensures IsBase64Char(c)
  {
    if v < 26 then ('A' as int + v) as char
    else if v < 52 then ('a' as int + (v - 26)) as char
    else if v < 62 then ('0' as int + (v - 52)) as char
    else if v == 62 then '+' else '/'
  }

  predicate IsBase64Char(c: char) {
    'A' <= c <= 'Z' || 'a' <= c <= 'z' || '0' <= c <= '9' || c == '+' || c == '/'
  }

  function CharSextet(c: char): sextet
    requires IsBase64Char(c)
  {
    if 'A' <= c <= 'Z' then c as int - 'A' as int
    else if 'a' <= c <= 'z' then c as int - 'a' as int + 26
    else if '0' <= c <= '9' then c as int - '0' as int + 52
    else if c == '+' then 62 else 63
  }

  lemma SextetRoundTrip(v: sextet)
    ensures CharSextet(SextetChar(v)) == v
  {
  }

  function EncodeGroup(a: byte, b: byte, c: byte): (s: string)
    ensures |s| == 4 && forall i :: 0 <= i < 4 ==> IsBase64Char(s[i])
  {
    [SextetChar(a / 4), SextetChar(a % 4 * 16 + b / 16), SextetChar(b % 16 * 4 + c / 64), SextetChar(c % 64)]
  }

  /** The three bytes of four base64 characters; Go drops the unused low bits of a padded group. */
  function DecodeGroup(s: string): seq<byte>
    requires |s| == 4 && forall i :: 0 <= i < 4 ==> IsBase64Char(s[i])
  {
    var p, q, r, t := CharSextet(s[0]), CharSextet(s[1]), CharSextet(s[2]), CharSextet(s[3]);
    [p * 4 + q / 16, q % 16 * 16 + r / 4, r % 4 * 64 + t]
  }

  function Encode(data: seq<byte>): string {
    if data == [] then ""
    else if |data| == 1 then EncodeGroup(data[0], 0, 0)[..2] + "=="
    else if |data| == 2 then EncodeGroup(data[0], data[1], 0)[..3] + "="
    else EncodeGroup(data[0], data[1], data[2]) + Encode(data[3..])
  }

  /** Go's decoder skips carriage returns and newlines wherever they stand. */
  function StripBreaks(s: string): string {
    if s == "" then ""
    else if s[0] == '\n' || s[0] == '\r' then StripBreaks(s[1..])
    else [s[0]] + StripBreaks(s[1..])
  }

  predicate IsBase64String(s: string) {
    forall i :: 0 <= i < |s| ==> IsBase64Char(s[i])
  }

  /** Whole groups of four, of which only the last may be padded. */
  function DecodeGroups(s: string): Option<seq<byte>> {
    if s == "" then Some([])
    else if |s| < 4 || !IsBase64String(s[..2]) then None
    else if |s| == 4 && s[2..] == "==" then Some(DecodeGroup(s[..2] + "AA")[..1])
    else if |s| == 4 && s[3] == '=' && IsBase64Char(s[2]) then Some(DecodeGroup(s[..3] + "A")[..2])
    else if !IsBase64String(s[..4]) then None
    else
      Prepend(DecodeGroup(s[..4]), DecodeGroups(s[4..]))
  }

  function Prepend(head: seq<byte>, tail: Option<seq<byte>>): Option<seq<byte>> {
    if tail.None? then None else Some(head + tail.value)
  }

  function Decode(s: string): Option<seq<byte>> {
    DecodeGroups(StripBreaks(s))
  }

  lemma RegroupHigh(a: byte, b: byte)
    ensures (a % 4 * 16 + b / 16) / 16 == a % 4 && (a % 4 * 16 + b / 16) % 16 == b / 16
    ensures a / 4 * 4 + a % 4 == a
  {
  }

  lemma RegroupLow(b: byte, c: byte)
    ensures (b % 16 * 4 + c / 64) / 4 == b % 16 && (b % 16 * 4 + c / 64) % 4 == c / 64
    ensures b / 16 * 16 + b % 16 == b && c / 64 * 64 + c % 64 == c
  {
  }

  lemma GroupRoundTrip(a: byte, b: byte, c: byte)
    ensures DecodeGroup(EncodeGroup(a, b, c)) == [a, b, c]
  {
    SextetRoundTrip(a / 4);
    SextetRoundTrip(a % 4 * 16 + b / 16);
    SextetRoundTrip(b % 16 * 4 + c / 64);
    SextetRoundTrip(c % 64);
    RegroupHigh(a, b);
    RegroupLow(b, c);
    var s := EncodeGroup(a, b, c);
    assert CharSextet(s[0]) == a / 4 && CharSextet(s[1]) == a % 4 * 16 + b / 16;
    assert CharSextet(s[2]) == b % 16 * 4 + c / 64 && CharSextet(s[3]) == c % 64;
  }

  predicate IsEncodedChar(c: char) {
    IsBase64Char(c) || c == '='
  }

  lemma {:induction false} EncodeAlphabet(data: seq<byte>)
    ensures forall c :: c in Encode(data) ==> IsEncodedChar(c)
    ensures |Encode(data)| == (|data| + 2) / 3 * 4
  {
    hide EncodeGroup, IsBase64Char;
    if |data| >= 3 {
      EncodeAlphabet(data[3..]);
    }
  }

  lemma {:induction false} StripNothing(s: string)
    requires forall c :: c in s ==> c != '\n' && c != '\r'
    ensures StripBreaks(s) == s
  {
    if s != "" {
      assert s[0] in s && forall c :: c in s[1..] ==> c in s;
      assert [s[0]] + s[1..] == s;
      StripNothing(s[1..]);
    }
  }

  lemma OneBytePadded(a: byte)
    ensures DecodeGroups(EncodeGroup(a, 0, 0)[..2] + "==") == Some([a])
  {
    var g := EncodeGroup(a, 0, 0);
    var s := g[..2] + "==";
    GroupRoundTrip(a, 0, 0);
    assert s[2..] == "==" && s[..2] == g[..2];
    assert s[..2] + "AA" == g;
    assert DecodeGroup(g)[..1] == [a];
  }

  /** The last text of a two-byte group, with `low` in the two bits the padding leaves unused. */
  function LooseTail(a: byte, b: byte, low: int): (s: string)
    requires 0 <= low < 4
    ensures |s| == 4
  {
    EncodeGroup(a, b, 64 * low)[..3] + "="
  }

  lemma OnePad(g: string)
    requires |g| == 4 && IsBase64String(g) && g[3] == 'A'
    ensures DecodeGroups(g[..3] + "=") == Some(DecodeGroup(g)[..2])
  {
    var s := g[..3] + "=";
    assert s[2..][0] == g[2] != '=';
    assert s[..2] == g[..2] && s[..3] == g[..3];
    assert s[..3] + "A" == g;
  }

  lemma UnusedBitsPrintA(a: byte, b: byte, low: int)
    requires 0 <= low < 4
    ensures EncodeGroup(a, b, 64 * low)[3] == 'A'
  {
    assert 64 * low % 64 == 0;
  }

  /** The unused bits of a padded group do not reach the decoded bytes. */
  lemma TwoBytesPadded(a: byte, b: byte, low: int)
    requires 0 <= low < 4
    ensures DecodeGroups(LooseTail(a, b, low)) == Some([a, b])
  {
    UnusedBitsPrintA(a, b, low);
    OnePad(EncodeGroup(a, b, 64 * low));
    GroupRoundTrip(a, b, 64 * low);
    assert [a, b, 64 * low][..2] == [a, b];
  }

  lemma WholeGroup(g: string, rest: string)
    requires |g| == 4 && IsBase64String(g)
    ensures DecodeGroups(g + rest) ==
            Prepend(DecodeGroup(g), DecodeGroups(rest))
  {
    var s := g + rest;
    assert s[..4] == g && s[4..] == rest && s[2..][0] == g[2] && s[3] == g[3];
  }

  lemma EncodedGroup(a: byte, b: byte, c: byte, rest: string)
    ensures DecodeGroups(EncodeGroup(a, b, c) + rest) ==
            Prepend([a, b, c], DecodeGroups(rest))
  {
    GroupRoundTrip(a, b, c);
    WholeGroup(EncodeGroup(a, b, c), rest);
  }

  lemma PrependNothing(tail: Option<seq<byte>>)
    ensures Prepend([], tail) == tail
  {
    if tail.Some? {
      assert [] + tail.value == tail.value;
    }
  }

  lemma PrependTwice(a: seq<byte>, b: seq<byte>, tail: Option<seq<byte>>)
    ensures Prepend(a, Prepend(b, tail)) == Prepend(a + b, tail)
  {
    if tail.Some? {
      assert a + (b + tail.value) == a + b + tail.value;
    }
  }

  /** Decoding an unpadded prefix and then the rest. */
  lemma {:induction false} PrefixRoundTrip(data: seq<byte>, tail: string)
    requires |data| % 3 == 0
    ensures DecodeGroups(Encode(data) + tail) ==
            Prepend(data, DecodeGroups(tail))
  {
    hide EncodeGroup, DecodeGroups;
    if data == [] {
      assert Encode(data) + tail == tail;
      PrependNothing(DecodeGroups(tail));
    } else {
      var rest := Encode(data[3..]) + tail;
      EncodedGroup(data[0], data[1], data[2], rest);
      assert Encode(data) + tail == EncodeGroup(data[0], data[1], data[2]) + rest;
      PrefixRoundTrip(data[3..], tail);
      PrependTwice(data[..3], data[3..], DecodeGroups(tail));
      assert data[..3] == [data[0], data[1], data[2]] && data[..3] + data[3..] == data;
    }
  }

  lemma ShortRoundTrip(data: seq<byte>)
    requires |data| < 3
    ensures DecodeGroups(Encode(data)) == Some(data)
  {
    hide EncodeGroup;
    if |data| == 1 {
      OneBytePadded(data[0]);
      assert data == [data[0]];
    } else if |data| == 2 {
      TwoBytesPadded(data[0], data[1], 0);
      assert data == [data[0], data[1]];
    }
  }

  lemma EncodeMore(data: seq<byte>)
    requires |data| >= 3
    ensures Encode(data) == EncodeGroup(data[0], data[1], data[2]) + Encode(data[3..])
  {
    hide EncodeGroup;
  }

  lemma {:induction false} GroupsRoundTrip(data: seq<byte>)
    ensures DecodeGroups(Encode(data)) == Some(data)
  {
    hide EncodeGroup, DecodeGroups, Encode;
    if |data| < 3 {
      ShortRoundTrip(data);
    } else {
      GroupsRoundTrip(data[3..]);
      EncodeMore(data);
      EncodedGroup(data[0], data[1], data[2], Encode(data[3..]));
      assert data == [data[0], data[1], data[2]] + data[3..];
    }
  }

  /** Base64 decoding inverts encoding on every byte sequence. */
  lemma DecodeEncode(data: seq<byte>)
    ensures Decode(Encode(data)) == Some(data)
  {
    EncodeAlphabet(data);
    StripNothing(Encode(data));
    GroupsRoundTrip(data);
  }

  // ---- hex ----

  type nibble = x: int | 0 <= x < 16

  function HexDigit(v: nibble): (c: char)
    ensures IsHexDigit(c)
  {
    if v < 10 then ('0' as int + v) as char else ('a' as int + (v - 10)) as char
  }

  predicate IsHexDigit(c: char) {
    '0' <= c <= '9' || 'a' <= c <= 'f'
  }

  function DigitNibble(c: char): nibble
    requires IsHexDigit(c)
  {
    if c <= '9' then c as int - '0' as int else c as int - 'a' as int + 10
  }

  function ToHex(data: seq<byte>): (s: string)
    ensures |s| == 2 * |data|
    ensures forall i :: 0 <= i < |s| ==> IsHexDigit(s[i])
  {
    if data == [] then ""
    else [HexDigit(data[0] / 16), HexDigit(data[0] % 16)] + ToHex(data[1..])
  }

  function FromHex(s: string): seq<byte>
    requires |s| % 2 == 0 && forall i :: 0 <= i < |s| ==> IsHexDigit(s[i])
  {
    if s == "" then []
    else [(DigitNibble(s[0]) * 16 + DigitNibble(s[1]))] + FromHex(s[2..])
  }

  lemma {:induction false} HexRoundTrip(data: seq<byte>)
    ensures FromHex(ToHex(data)) == data
  {
    if data != [] {
      HexRoundTrip(data[1..]);
      assert ToHex(data)[2..] == ToHex(data[1..]);
    }
  }

  // ---- the conversion between the config file and the device ----

  /** `b64ToHex`: a config-file key as the device protocol writes it. */
  function B64ToHex(b64: string): (r: Option<string>)
    ensures r.Some? ==> IsHexKey(r.value)
  {
    match Decode(b64)
    case None => None
    case Some(raw) => if |raw| == KEY_LENGTH then Some(ToHex(raw)) else None
  }

  predicate IsHexKey(s: string) {
    |s| == 2 * KEY_LENGTH && forall i :: 0 <= i < |s| ==> IsHexDigit(s[i])
  }

  /** A generated key is accepted exactly when it has 32 bytes, and becomes their hex digits. */
  lemma GeneratedKeyAccepted(key: seq<byte>)
    ensures B64ToHex(Encode(key)) == if |key| == KEY_LENGTH then Some(ToHex(key)) else None
  {
    hide Encode, Decode, ToHex;
    DecodeEncode(key);
  }

  /** Distinct keys stay distinct, in the file and on the device. */
  lemma DistinctKeysStayDistinct(k1: seq<byte>, k2: seq<byte>)
    requires |k1| == |k2| == KEY_LENGTH
    ensures B64ToHex(Encode(k1)) == B64ToHex(Encode(k2)) <==> k1 == k2
    ensures Encode(k1) == Encode(k2) <==> k1 == k2
  {
    hide Encode, ToHex, B64ToHex, FromHex;
    GeneratedKeyAccepted(k1);
    GeneratedKeyAccepted(k2);
    HexRoundTrip(k1);
    HexRoundTrip(k2);
  }

  lemma LooseTailAlphabet(a: byte, b: byte, low: int)
    requires 0 <= low < 4
    ensures forall c :: c in LooseTail(a, b, low) ==> IsEncodedChar(c)
  {
  }

  function LooseText(key: seq<byte>, low: int): string
    requires |key| == KEY_LENGTH && 0 <= low < 4
  {
    Encode(key[..30]) + LooseTail(key[30], key[31], low)
  }

  lemma LooseTailsDiffer(a: byte, b: byte, l1: int, l2: int)
    requires 0 <= l1 < 4 && 0 <= l2 < 4 && l1 != l2
    ensures LooseTail(a, b, l1) != LooseTail(a, b, l2)
  {
    hide SextetChar, CharSextet;
    var s1, s2 := b % 16 * 4 + l1, b % 16 * 4 + l2;
    SextetRoundTrip(s1);
    SextetRoundTrip(s2);
    assert 64 * l1 / 64 == l1 && 64 * l2 / 64 == l2;
    assert LooseTail(a, b, l1)[2] == SextetChar(s1) && LooseTail(a, b, l2)[2] == SextetChar(s2);
  }

  /**
   * Hand-written texts need not be canonical: four texts, no two the same, name every key, and only the first is the
   * one the encoder writes; so text equality is too fine.
   */
  lemma LooseTextsCollide(key: seq<byte>, low: int)
    requires |key| == KEY_LENGTH && 0 <= low < 4
    ensures B64ToHex(LooseText(key, low)) == Some(ToHex(key))
    ensures LooseText(key, low) == Encode(key) <==> low == 0
    ensures forall other :: 0 <= other < 4 && other != low ==> LooseText(key, other) != LooseText(key, low)
  {
    hide Encode, LooseTail, DecodeGroups, ToHex, B64ToHex;
    LooseTextDecodes(key, low);
    LooseTextEncodes(key);
    forall l1, l2 | 0 <= l1 < 4 && 0 <= l2 < 4 && l1 != l2 ensures LooseText(key, l1) != LooseText(key, l2) {
      LooseTailsDiffer(key[30], key[31], l1, l2);
      SuffixDiffers(Encode(key[..30]), LooseTail(key[30], key[31], l1), LooseTail(key[30], key[31], l2));
    }
  }

  lemma SuffixDiffers(a: string, b: string, c: string)
    requires b != c
    ensures a + b != a + c
  {
    assert (a + b)[|a|..] == b && (a + c)[|a|..] == c;
  }

  lemma {:induction false} EncodeTail(data: seq<byte>, a: byte, b: byte)
    requires |data| % 3 == 0
    ensures Encode(data + [a, b]) == Encode(data) + LooseTail(a, b, 0)
  {
    hide EncodeGroup;
    if data == [] {
      assert data + [a, b] == [a, b];
    } else {
      EncodeTail(data[3..], a, b);
      assert (data + [a, b])[3..] == data[3..] + [a, b];
    }
  }

  lemma LooseTextEncodes(key: seq<byte>)
    requires |key| == KEY_LENGTH
    ensures LooseText(key, 0) == Encode(key)
  {
    hide Encode, LooseTail;
    EncodeTail(key[..30], key[30], key[31]);
    assert key == key[..30] + [key[30], key[31]];
  }

  lemma LooseTextDecodes(key: seq<byte>, low: int)
    requires |key| == KEY_LENGTH && 0 <= low < 4
    ensures B64ToHex(LooseText(key, low)) == Some(ToHex(key))
  {
    hide Encode, LooseTail, DecodeGroups, ToHex;
    var text := Encode(key[..30]) + LooseTail(key[30], key[31], low);
    LooseTailAlphabet(key[30], key[31], low);
    EncodeAlphabet(key[..30]);
    StripNothing(text);
    TwoBytesPadded(key[30], key[31], low);
    PrefixRoundTrip(key[..30], LooseTail(key[30], key[31], low));
    assert key == key[..30] + [key[30], key[31]];
  }

  // ---- the alphabets ----

  const BASE64 := UPPER + LOWER + "0123456789+/"

  /** The alphabet of section 4 of RFC 4648. */
  lemma SextetAlphabet(v: sextet)
    ensures |BASE64| == 64 && SextetChar(v) == BASE64[v]
  {
    if v < 26 {
      Alphabet(v);
    } else if v < 52 {
      Alphabet(v - 26);
    } else {
      DigitPart(v - 52);
    }
  }

  lemma DigitPart(k: nat)
    requires k < 12
    ensures "0123456789+/"[k] == if k < 10 then ('0' as int + k) as char else if k == 10 then '+' else '/'
  {
  }

  /** Four base-64 digits, most significant first. */
  datatype Digits = Digits(p: sextet, q: sextet, r: sextet, t: sextet)

  function GroupOf(a: byte, b: byte, c: byte): Digits {
    Digits(a / 4, a % 4 * 16 + b / 16, b % 16 * 4 + c / 64, c % 64)
  }

  /** Three bytes, most significant first, are the same number as their four digits, written in that alphabet. */
  lemma GroupMeaning(a: byte, b: byte, c: byte)
    ensures var d := GroupOf(a, b, c);
            ((d.p * 64 + d.q) * 64 + d.r) * 64 + d.t == (a * 256 + b) * 256 + c &&
            EncodeGroup(a, b, c) == [BASE64[d.p], BASE64[d.q], BASE64[d.r], BASE64[d.t]]
  {
    hide GroupOf;
    GroupDigits(a, b, c);
    GroupLetters(a, b, c);
  }

  lemma GroupLetters(a: byte, b: byte, c: byte)
    ensures var d := GroupOf(a, b, c);
            EncodeGroup(a, b, c) == [BASE64[d.p], BASE64[d.q], BASE64[d.r], BASE64[d.t]]
  {
    hide SextetChar;
    var d := GroupOf(a, b, c);
    SextetAlphabet(d.p);
    SextetAlphabet(d.q);
    SextetAlphabet(d.r);
    SextetAlphabet(d.t);
  }

  /** A last group of one or two bytes is padded with zero bits, and then with equals signs for the missing bytes. */
  lemma PaddingMeaning(a: byte, b: byte)
    ensures Encode([a]) == [EncodeGroup(a, 0, 0)[0], EncodeGroup(a, 0, 0)[1], '=', '=']
    ensures Encode([a, b]) == [EncodeGroup(a, b, 0)[0], EncodeGroup(a, b, 0)[1], EncodeGroup(a, b, 0)[2], '=']
  {
    hide EncodeGroup;
  }

  lemma GroupDigits(a: byte, b: byte, c: byte)
    ensures var d := GroupOf(a, b, c);
            ((d.p * 64 + d.q) * 64 + d.r) * 64 + d.t == (a * 256 + b) * 256 + c
  {
    RegroupHigh(a, b);
    RegroupLow(b, c);
  }

  /** Two lower-case digits a byte, the high half first (section 8 of RFC 4648). */
  lemma {:induction false} HexMeaning(data: seq<byte>, i: nat)
    requires i < |data|
    ensures ToHex(data)[2 * i] == "0123456789abcdef"[data[i] / 16]
    ensures ToHex(data)[2 * i + 1] == "0123456789abcdef"[data[i] % 16]
    decreases |data|
  {
    hide HexDigit;
    if i == 0 {
      HexLetters(data[0] / 16);
      HexLetters(data[0] % 16);
    } else {
      HexMeaning(data[1..], i - 1);
    }
  }

  lemma HexLetters(v: nibble)
    ensures HexDigit(v) == "0123456789abcdef"[v]
  {
  }

  /** A key is accepted exactly if it decodes to 32 bytes; the decoder skips newlines and carriage returns. */
  lemma KeyMeaning(b64: string)
    ensures B64ToHex(b64).Some? <==> Decode(b64).Some? && |Decode(b64).value| == 32
    ensures B64ToHex(b64).Some? ==> B64ToHex(b64).value == ToHex(Decode(b64).value) && |B64ToHex(b64).value| == 64
  {
    hide Decode;
  }

  // ---- which texts are keys ----

  lemma Base64Letters(c: char)
    ensures IsBase64Char(c) <==> c in BASE64
    ensures IsBase64Char(c) ==> BASE64[CharSextet(c)] == c
  {
    hide SextetChar;
    if IsBase64Char(c) {
      SextetAlphabet(CharSextet(c));
      CharRoundTrip(c);
    } else if c in BASE64 {
      var v :| 0 <= v < |BASE64| && BASE64[v] == c;
      SextetAlphabet(0);
      SextetAlphabet(v);
    }
  }

  lemma CharRoundTrip(c: char)
    requires IsBase64Char(c)
    ensures SextetChar(CharSextet(c)) == c
  {
  }

  /** Whole groups of four letters, of which the last may end in one or two equals signs. */
  predicate Base64Text(s: string) {
    var n := |s|;
    n % 4 == 0 &&
    (n >= 4 ==>
       IsBase64String(s[..n - 2]) &&
       (s[n - 2..] == "==" || (IsBase64Char(s[n - 2]) && (s[n - 1] == '=' || IsBase64Char(s[n - 1])))))
  }

  /** Exactly these texts are decoded. */
  lemma {:induction false} DecodedTexts(s: string)
    ensures DecodeGroups(s).Some? <==> Base64Text(s)
    decreases |s|
  {
    hide IsBase64Char, DecodeGroup;
    NoPadLetter();
    if |s| > 4 {
      DecodedTexts(s[4..]);
      MoreText(s);
    }
  }

  lemma NoPadLetter()
    ensures !IsBase64Char('=')
  {
  }

  lemma MoreText(s: string)
    requires |s| > 4
    ensures Base64Text(s) <==> IsBase64String(s[..4]) && Base64Text(s[4..])
  {
    hide IsBase64Char;
    var n, t := |s|, s[4..];
    NoPadLetter();
    if n % 4 == 0 {
      assert t[|t| - 2..] == s[n - 2..];
      assert IsBase64String(s[..n - 2]) <==> IsBase64String(s[..4]) && IsBase64String(t[..|t| - 2]) by {
        assert s[..n - 2] == s[..4] + t[..|t| - 2];
      }
    }
  }

  function ThreeBytes(a: int, b: int, c: int): int {
    (a * 256 + b) * 256 + c
  }

  function FourDigits(p: int, q: int, r: int, t: int): int {
    ((p * 64 + q) * 64 + r) * 64 + t
  }

  /** A group of four letters is three bytes: the same number, most significant first. */
  lemma GroupDecodes(s: string)
    requires |s| == 4 && IsBase64String(s)
    ensures var d, b := Digits(CharSextet(s[0]), CharSextet(s[1]), CharSextet(s[2]), CharSextet(s[3])), DecodeGroup(s);
            |b| == 3 && ThreeBytes(b[0], b[1], b[2]) == FourDigits(d.p, d.q, d.r, d.t)
  {
    hide IsBase64Char, CharSextet;
    var p, q, r, t := CharSextet(s[0]), CharSextet(s[1]), CharSextet(s[2]), CharSextet(s[3]);
    SextetsRegroup(p, q, r, t);
  }

  lemma SextetsRegroup(p: sextet, q: sextet, r: sextet, t: sextet)
    ensures ThreeBytes(p * 4 + q / 16, q % 16 * 16 + r / 4, r % 4 * 64 + t) == FourDigits(p, q, r, t)
  {
    assert q == q / 16 * 16 + q % 16 && r == r / 4 * 4 + r % 4;
  }

  lemma StripFirst(c: char, s: string)
    ensures StripBreaks([c] + s) == (if c == '\n' || c == '\r' then "" else [c]) + StripBreaks(s)
  {
    assert ([c] + s)[1..] == s;
  }

  lemma {:induction false} StripConcat(a: string, b: string)
    ensures StripBreaks(a + b) == StripBreaks(a) + StripBreaks(b)
  {
    if a == "" {
      assert a + b == b;
    } else {
      hide StripBreaks;
      var c, rest := a[0], a[1..];
      StripConcat(rest, b);
      StripFirst(c, rest);
      StripFirst(c, rest + b);
      assert a == [c] + rest && a + b == [c] + (rest + b);
    }
  }

  /** Newlines and carriage returns are skipped wherever they stand, and nothing else is. */
  lemma BreaksSkipped(a: string, b: string)
    ensures Decode(a + "\n" + b) == Decode(a + b) == Decode(a + "\r" + b)
    ensures (forall c :: c in a ==> c != '\n' && c != '\r') ==> Decode(a) == DecodeGroups(a)
  {
    hide DecodeGroups, StripBreaks;
    StripConcat(a, b);
    StripConcat(a, "\n");
    StripConcat(a + "\n", b);
    StripConcat(a, "\r");
    StripConcat(a + "\r", b);
    NothingStripped();
    assert StripBreaks(a) + "" == StripBreaks(a);
    if forall c :: c in a ==> c != '\n' && c != '\r' {
      StripNothing(a);
    }
  }

  lemma NothingStripped()
    ensures StripBreaks("\n") == "" && StripBreaks("\r") == ""
  {
  }
}
