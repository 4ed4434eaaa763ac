/** Addresses and prefixes as Go's `netip` reads them: what the device routes by, and what the octet scan sees. */
module Prefixes {
  import opened Wrappers
  import opened Text
  import Decimal

  /** An address as a number, with the zone an IPv6 text may carry. */
  datatype Addr = V4(n: nat) | V6(n: nat, zone: string)

  /** A network: its lowest address and its prefix length. */
  datatype Net = Net4(low: nat, bits: nat) | Net6(low: nat, bits: nat)

  // ---- dotted addresses ----

  /** One field of a dotted IPv4 address: up to three digits, no leading zero, at most 255. */
  function Field(s: string): Option<nat> {
    if s == "" || |s| > 3 || !Decimal.AllDigits(s) || (|s| > 1 && s[0] == '0') || Decimal.DigitsValue(s) > 255 then None
    else Some(Decimal.DigitsValue(s))
  }

  function FourFields(fields: seq<string>): Option<nat> {
    if |fields| != 4 || Field(fields[0]).None? || Field(fields[1]).None? || Field(fields[2]).None? ||
       Field(fields[3]).None? then None
    else
      Some(0x1_000000 * Field(fields[0]).value + 0x1_0000 * Field(fields[1]).value +
           0x100 * Field(fields[2]).value + Field(fields[3]).value)
  }

  function ReadDotted(s: string): Option<nat> {
    FourFields(Split(s, '.'))
  }

  // ---- colon addresses (section 2.2 of RFC 4291) ----

  const GROUPS := 8

  predicate IsHex(c: char) {
    '0' <= c <= '9' || 'a' <= c <= 'f' || 'A' <= c <= 'F'
  }

  function HexRun(s: string): (r: nat)
    ensures r <= |s| && forall i :: 0 <= i < r ==> IsHex(s[i])
  {
    if s == "" || !IsHex(s[0]) then 0 else 1 + HexRun(s[1..])
  }

  function HexDigitValue(c: char): nat
    requires IsHex(c)
  {
    if c <= '9' then c as int - '0' as int
    else if c <= 'F' then c as int - 'A' as int + 10
    else c as int - 'a' as int + 10
  }

  function HexValue(s: string): nat
    requires forall i :: 0 <= i < |s| ==> IsHex(s[i])
  {
    if s == "" then 0 else 16 * HexValue(s[..|s| - 1]) + HexDigitValue(s[|s| - 1])
  }

  /** The 16-bit groups read so far, and where the double colon stood. */
  datatype Groups = Groups(values: seq<nat>, gap: Option<nat>)

  /** Groups of one to four hex digits between colons; the last two may be written as a dotted address. */
  function ReadGroups(s: string, read: Groups): Option<Groups>
    decreases |s|
  {
    var count, off := |read.values|, HexRun(s);
    if count >= GROUPS then if s == "" then Some(read) else None
    else if off == 0 || off > 4 then None
    else if off < |s| && s[off] == '.' then
      if count > GROUPS - 2 || (read.gap.None? && count != GROUPS - 2) then None
      else
        match ReadDotted(s)
        case None => None
        case Some(n) => Some(read.(values := read.values + [n / 0x1_0000, n % 0x1_0000]))
    else
      var next := read.(values := read.values + [HexValue(s[..off])]);
      var rest := s[off..];
      if rest == "" then Some(next)
      else if rest[0] != ':' || |rest| == 1 then None
      else if rest[1] != ':' then ReadGroups(rest[1..], next)
      else if read.gap.Some? then None
      else
        var gapped := next.(gap := Some(count + 1));
        if |rest| == 2 then Some(gapped) else ReadGroups(rest[2..], gapped)
  }

  function Zeros(k: nat): seq<nat> {
    seq(k, _ => 0)
  }

  /** Eight groups; a double colon stands for at least one of zeros. */
  function Expand(read: Groups): Option<seq<nat>> {
    var count := |read.values|;
    match read.gap
    case None => if count == GROUPS then Some(read.values) else None
    case Some(at) =>
      if count >= GROUPS || at > count then None
      else Some(read.values[..at] + Zeros(GROUPS - count) + read.values[at..])
  }

  function GroupsValue(values: seq<nat>): nat {
    if values == [] then 0 else 0x1_0000 * GroupsValue(values[..|values| - 1]) + values[|values| - 1]
  }

  function ReadColons(s: string): Option<nat> {
    var read :=
      if s == "::" then Some(Groups([], Some(0)))
      else if "::" <= s then ReadGroups(s[2..], Groups([], Some(0)))
      else ReadGroups(s, Groups([], None));
    match read
    case None => None
    case Some(groups) =>
      match Expand(groups)
      case None => None
      case Some(values) => Some(GroupsValue(values))
  }

  // ---- addresses ----

  /** The first character that tells the notation. */
  function Notation(s: string): Option<char> {
    if s == "" then None
    else if s[0] == '.' || s[0] == ':' || s[0] == '%' then Some(s[0])
    else Notation(s[1..])
  }

  function ReadZoned(s: string): Option<Addr> {
    var at := IndexOf(s, '%');
    var zone := if at < 0 then "" else s[at + 1..];
    if at >= 0 && zone == "" then None
    else
      match ReadColons(if at < 0 then s else s[..at])
      case None => None
      case Some(n) => Some(V6(n, zone))
  }

  /** `netip.ParseAddr` */
  function ReadAddr(s: string): Option<Addr> {
    match Notation(s)
    case Some('.') =>
      (match ReadDotted(s)
       case None => None
       case Some(n) => Some(V4(n)))
    case Some(':') => ReadZoned(s)
    case _ => None
  }

  // ---- prefixes ----

  function LastIndexOf(s: string, c: char): (r: int)
    ensures -1 <= r < |s|
  {
    if s == "" then -1 else if s[|s| - 1] == c then |s| - 1 else LastIndexOf(s[..|s| - 1], c)
  }

  function Width(a: Addr): nat {
    if a.V4? then 32 else 128
  }

  /** A prefix length without sign or leading zeros. */
  function ReadBits(s: string, width: nat): Option<nat> {
    if s == "" || !Decimal.AllDigits(s) || (|s| > 1 && s[0] == '0') || Decimal.DigitsValue(s) > width then None
    else Some(Decimal.DigitsValue(s))
  }

  /** The number with its lowest `hostBits` bits cleared. */
  function Masked(n: nat, hostBits: nat): nat {
    if hostBits == 0 then n else 2 * Masked(n / 2, hostBits - 1)
  }

  /** `netip.ParsePrefix`, and the host bits the device then clears. */
  function ReadPrefix(s: string): Option<Net> {
    var slash := LastIndexOf(s, '/');
    if slash < 0 then None
    else
      match ReadAddr(s[..slash])
      case None => None
      case Some(a) =>
        match ReadBits(s[slash + 1..], Width(a))
        case None => None
        case Some(bits) =>
          match a
          case V4(n) => Some(Net4(Masked(n, 32 - bits), bits))
          case V6(n, zone) => if zone != "" then None else Some(Net6(Masked(n, 128 - bits), bits))
  }

  /** `netip.ParseAddrPort`: an address, bracketed exactly if it is IPv6, and a 16-bit port. */
  predicate IsEndpoint(s: string) {
    var colon := LastIndexOf(s, ':');
    colon > 0 && IsPort(s[colon + 1..]) &&
    var host := s[..colon];
    if host[0] == '[' then |host| >= 2 && host[|host| - 1] == ']' && IsV6(ReadAddr(host[1..|host| - 1]))
    else ReadAddr(host).Some? && !IsV6(ReadAddr(host))
  }

  predicate IsV6(a: Option<Addr>) {
    a.Some? && a.value.V6?
  }

  predicate IsPort(s: string) {
    s != "" && Decimal.AllDigits(s) && Decimal.DigitsValue(s) <= 65535
  }

  // ---- the last octet ----

  const MAPPED := 0xFFFF

  /** A mask as `net.ParseCIDR` reads it: any number of leading zeros. */
  predicate IsMask(s: string, width: nat) {
    s != "" && Decimal.AllDigits(s) && Decimal.DigitsValue(s) <= width
  }

  /** The last octet of an IPv4 CIDR, plain or mapped into IPv6: `net.ParseCIDR` and then `To4`. */
  function LastOctet(cidr: string): Option<nat> {
    var slash := IndexOf(cidr, '/');
    if slash < 0 then None
    else
      match ReadAddr(cidr[..slash])
      case None => None
      case Some(a) =>
        if !IsMask(cidr[slash + 1..], Width(a)) || (a.V6? && (a.zone != "" || a.n / 0x1_0000_0000 != MAPPED)) then None
        else Some(a.n % 256)
  }

  // ---- what the two readers make of one text ----

  lemma {:induction false} LastIndexAt(a: string, c: char, b: string)
    requires c !in b
    ensures LastIndexOf(a + [c] + b, c) == |a|
  {
    var s := a + [c] + b;
    if b == "" {
      assert s[|s| - 1] == c;
    } else {
      assert s[..|s| - 1] == a + [c] + b[..|b| - 1];
      LastIndexAt(a, c, b[..|b| - 1]);
    }
  }

  lemma {:induction false} LastIndexFacts(s: string, c: char)
    ensures var at := LastIndexOf(s, c); at >= 0 ==> s[at] == c && c !in s[at + 1..]
  {
    if s != "" && s[|s| - 1] != c {
      var front := s[..|s| - 1];
      LastIndexFacts(front, c);
      var at := LastIndexOf(s, c);
      if at >= 0 {
        assert s[at + 1..] == front[at + 1..] + [s[|s| - 1]];
      }
    }
  }

  lemma {:induction false} SplitMember(s: string, sep: char, c: char)
    requires c in s && c != sep
    ensures exists i :: 0 <= i < |Split(s, sep)| && c in Split(s, sep)[i]
  {
    if s[0] == c {
      assert c in Split(s, sep)[0];
    } else {
      SplitMember(s[1..], sep, c);
      var rest := Split(s[1..], sep);
      var i :| 0 <= i < |rest| && c in rest[i];
      if s[0] == sep {
        assert Split(s, sep)[i + 1] == rest[i];
      } else {
        assert c in Split(s, sep)[i];
      }
    }
  }

  /** A dotted address holds digits and dots alone. */
  lemma DottedChars(s: string, c: char)
    requires ReadDotted(s).Some? && c in s && c != '.'
    ensures Decimal.IsDigit(c)
  {
    hide Split;
    SplitMember(s, '.', c);
  }

  /** A text the device reads as a single IPv4 host is one whose octet the scan sees. */
  lemma HostOctet(cidr: string, n: nat)
    requires ReadPrefix(cidr) == Some(Net4(n, 32))
    ensures LastOctet(cidr) == Some(n % 256)
  {
    hide ReadDotted, LastIndexOf, IndexOf, ReadColons;
    var slash := LastIndexOf(cidr, '/');
    var host, bits := cidr[..slash], cidr[slash + 1..];
    assert ReadDotted(host).Some?;
    if '/' in host {
      DottedChars(host, '/');
      assert false;
    }
    LastIndexFacts(cidr, '/');
    assert cidr == host + ['/'] + bits;
    IndexOfAt(host, '/', bits);
  }

  /** The number above its lowest `hostBits` bits. */
  function Above(n: nat, hostBits: nat): nat {
    if hostBits == 0 then n else Above(n / 2, hostBits - 1)
  }

  /** Under one prefix length two addresses denote the same network exactly if they agree above the host bits. */
  lemma {:induction false} HostBitsIgnored(a: nat, b: nat, hostBits: nat)
    ensures Masked(a, hostBits) == Masked(b, hostBits) <==> Above(a, hostBits) == Above(b, hostBits)
    decreases hostBits
  {
    if hostBits > 0 {
      HostBitsIgnored(a / 2, b / 2, hostBits - 1);
    }
  }
}
