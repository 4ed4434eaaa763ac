/** Which texts denote which addresses and networks, written out without the readers. */
module AddressText {
  import opened Wrappers
  import opened Text
  import opened Cutting
  import opened Prefixes
  import Decimal

  // ---- dotted addresses ----

  /** Four numbers between dots, most significant first. */
  function Dotted(a: nat, b: nat, c: nat, d: nat): string {
    Decimal.FormatNat(a) + "." + Decimal.FormatNat(b) + "." + Decimal.FormatNat(c) + "." + Decimal.FormatNat(d)
  }

  function Number(a: nat, b: nat, c: nat, d: nat): nat {
    ((a * 256 + b) * 256 + c) * 256 + d
  }

  /** A field is a number up to 255, printed without leading zeros; nothing else is. */
  lemma FieldExactly(s: string, n: nat)
    ensures Field(s) == Some(n) <==> n <= 255 && s == Decimal.FormatNat(n)
  {
    Decimal.ValueOfFormat(n);
    assert Decimal.Ten(3) == 1000;
    if n < 10 {
      assert Decimal.Ten(1) == 10;
    }
    if Field(s) == Some(n) {
      Decimal.FormatOfValue(s);
    }
  }

  lemma NoDots(n: nat, c: char)
    requires !Decimal.IsDigit(c)
    ensures c !in Decimal.FormatNat(n)
  {
  }

  lemma SplitFour(p: string, q: string, r: string, t: string)
    requires '.' !in p && '.' !in q && '.' !in r && '.' !in t
    ensures Split(p + "." + q + "." + r + "." + t, '.') == [p, q, r, t]
  {
    hide Split;
    assert p + "." + q + "." + r + "." + t == p + ['.'] + (q + ['.'] + (r + ['.'] + t));
    SplitConcat(p, '.', q + ['.'] + (r + ['.'] + t));
    SplitConcat(q, '.', r + ['.'] + t);
    SplitConcat(r, '.', t);
    SplitWhole(p, '.');
    SplitWhole(q, '.');
    SplitWhole(r, '.');
    SplitWhole(t, '.');
  }

  lemma {:induction false} JoinSplit(s: string, sep: char)
    ensures Join(Split(s, sep), sep) == s
  {
    if s != "" {
      JoinSplit(s[1..], sep);
      var rest := Split(s[1..], sep);
      if s[0] == sep {
        assert ([""] + rest)[1..] == rest;
        assert s == "" + [sep] + s[1..];
      } else {
        JoinPush(s[0], rest, sep);
        assert s == [s[0]] + s[1..];
      }
    }
  }

  lemma JoinPush(c: char, parts: seq<string>, sep: char)
    requires parts != []
    ensures Join(Push(c, parts), sep) == [c] + Join(parts, sep)
  {
    if |parts| == 1 {
      assert Push(c, parts)[0] == [c] + parts[0];
    } else {
      assert Push(c, parts)[1..] == parts[1..];
      var rest := Join(parts[1..], sep);
      assert [c] + parts[0] + [sep] + rest == [c] + (parts[0] + [sep] + rest);
    }
  }

  lemma JoinFour(p: string, q: string, r: string, t: string)
    ensures Join([p, q, r, t], '.') == p + "." + q + "." + r + "." + t
  {
    assert [r, t][1..] == [t] && Join([r, t], '.') == r + ['.'] + t;
    assert [q, r, t][1..] == [r, t] && Join([q, r, t], '.') == q + ['.'] + (r + ['.'] + t);
    assert [p, q, r, t][1..] == [q, r, t];
    assert p + ['.'] + (q + ['.'] + (r + ['.'] + t)) == p + "." + q + "." + r + "." + t;
  }

  /** A dotted text denotes an address exactly if it is four numbers up to 255, printed without leading zeros. */
  lemma DottedExactly(s: string, n: nat)
    ensures ReadDotted(s) == Some(n) <==>
            exists a, b, c, d ::
              a <= 255 && b <= 255 && c <= 255 && d <= 255 && s == Dotted(a, b, c, d) && n == Number(a, b, c, d)
  {
    hide Split, Field, Dotted;
    if ReadDotted(s) == Some(n) {
      var fields := Split(s, '.');
      var a, b, c, d := Field(fields[0]).value, Field(fields[1]).value, Field(fields[2]).value, Field(fields[3]).value;
      FieldExactly(fields[0], a);
      FieldExactly(fields[1], b);
      FieldExactly(fields[2], c);
      FieldExactly(fields[3], d);
      JoinSplit(s, '.');
      JoinFour(fields[0], fields[1], fields[2], fields[3]);
      assert fields == [fields[0], fields[1], fields[2], fields[3]];
      IsDotted(s, a, b, c, d);
    }
    if exists a, b, c, d ::
      a <= 255 && b <= 255 && c <= 255 && d <= 255 && s == Dotted(a, b, c, d) && n == Number(a, b, c, d) {
      var a, b, c, d :|
        a <= 255 && b <= 255 && c <= 255 && d <= 255 && s == Dotted(a, b, c, d) && n == Number(a, b, c, d);
      DottedReads(a, b, c, d);
    }
  }

  lemma IsDotted(s: string, a: nat, b: nat, c: nat, d: nat)
    requires s == Decimal.FormatNat(a) + "." + Decimal.FormatNat(b) + "." + Decimal.FormatNat(c) + "."
                  + Decimal.FormatNat(d)
    ensures s == Dotted(a, b, c, d)
  {
  }

  lemma DottedReads(a: nat, b: nat, c: nat, d: nat)
    requires a <= 255 && b <= 255 && c <= 255 && d <= 255
    ensures ReadDotted(Dotted(a, b, c, d)) == Some(Number(a, b, c, d))
  {
    hide Split, Field, Decimal.FormatNat;
    var p, q, r, t := Decimal.FormatNat(a), Decimal.FormatNat(b), Decimal.FormatNat(c), Decimal.FormatNat(d);
    FieldExactly(p, a);
    FieldExactly(q, b);
    FieldExactly(r, c);
    FieldExactly(t, d);
    NoDots(a, '.');
    NoDots(b, '.');
    NoDots(c, '.');
    NoDots(d, '.');
    SplitFour(p, q, r, t);
  }

  // ---- which notation a text is in ----

  lemma {:induction false} NotationAt(a: string, c: char, b: string)
    requires '.' !in a && ':' !in a && '%' !in a && (c == '.' || c == ':' || c == '%')
    ensures Notation(a + [c] + b) == Some(c)
    decreases |a|
  {
    var s := a + [c] + b;
    if a == "" {
      assert s[0] == c;
    } else {
      assert s[1..] == a[1..] + [c] + b;
      NotationAt(a[1..], c, b);
    }
  }

  /** Four numbers between dots are an IPv4 address, and every IPv4 address is. */
  lemma AddressExactly(s: string, n: nat)
    ensures ReadAddr(s) == Some(V4(n)) <==> ReadDotted(s) == Some(n)
  {
    hide ReadDotted, Notation, ReadColons, Dotted, Decimal.FormatNat;
    if ReadDotted(s) == Some(n) {
      DottedExactly(s, n);
      var a, b, c, d :|
        a <= 255 && b <= 255 && c <= 255 && d <= 255 && s == Dotted(a, b, c, d) && n == Number(a, b, c, d);
      DottedNotation(a, b, c, d);
    }
  }

  lemma DottedNotation(a: nat, b: nat, c: nat, d: nat)
    ensures Notation(Dotted(a, b, c, d)) == Some('.')
    ensures forall x :: x in Dotted(a, b, c, d) ==> x == '.' || Decimal.IsDigit(x)
  {
    hide Decimal.FormatNat, Notation;
    var rest := Decimal.FormatNat(b) + "." + Decimal.FormatNat(c) + "." + Decimal.FormatNat(d);
    NoDots(a, '.');
    NoDots(a, ':');
    NoDots(a, '%');
    NotationAt(Decimal.FormatNat(a), '.', rest);
    assert Dotted(a, b, c, d) == Decimal.FormatNat(a) + ['.'] + rest;
  }

  // ---- prefix lengths ----

  function Two(k: nat): nat {
    if k == 0 then 1 else 2 * Two(k - 1)
  }

  /** The host bits are the lowest ones: the address rounded down to a multiple of their range. */
  lemma {:induction false} MaskedMeaning(n: nat, hostBits: nat)
    ensures Masked(n, hostBits) == Above(n, hostBits) * Two(hostBits)
    ensures Masked(n, hostBits) <= n < Masked(n, hostBits) + Two(hostBits)
    decreases hostBits
  {
    if hostBits > 0 {
      MaskedMeaning(n / 2, hostBits - 1);
      Doubled(Above(n / 2, hostBits - 1), Two(hostBits - 1), Masked(n / 2, hostBits - 1));
    }
  }

  lemma Doubled(q: nat, t: nat, m: nat)
    requires m == q * t
    ensures 2 * m == q * (2 * t)
  {
  }

  /** A prefix length is a number up to the width, printed without leading zeros. */
  lemma BitsExactly(s: string, width: nat, bits: nat)
    ensures ReadBits(s, width) == Some(bits) <==> bits <= width && s == Decimal.FormatNat(bits)
  {
    Decimal.ValueOfFormat(bits);
    if bits < 10 {
      assert Decimal.Ten(1) == 10;
    }
    if ReadBits(s, width) == Some(bits) {
      Decimal.FormatOfValue(s);
    }
  }

  lemma CutAtSlash(host: string, bits: string)
    requires '/' !in bits
    ensures var cidr := host + "/" + bits;
            LastIndexOf(cidr, '/') == |host| && cidr[..|host|] == host && cidr[|host| + 1..] == bits
    ensures '/' !in host ==> IndexOf(host + "/" + bits, '/') == |host|
  {
    hide IndexOf, LastIndexOf;
    assert host + "/" + bits == host + ['/'] + bits;
    LastIndexAt(host, '/', bits);
    if '/' !in host {
      IndexOfAt(host, '/', bits);
    }
  }

  lemma NoSlash(k: nat)
    ensures '/' !in Decimal.FormatNat(k)
  {
  }

  /** What the device routes: the address with its host bits cleared, under a printed prefix length. */
  lemma PrefixReads(host: string, a: Addr, k: nat)
    requires ReadAddr(host) == Some(a) && (a.V6? ==> a.zone == "")
    ensures ReadPrefix(host + "/" + Decimal.FormatNat(k)) ==
            if k > Width(a) then None
            else if a.V4? then Some(Net4(Masked(a.n, 32 - k), k))
            else Some(Net6(Masked(a.n, 128 - k), k))
  {
    hide ReadAddr, ReadBits, LastIndexOf, IndexOf, Masked, Decimal.FormatNat;
    var bits := Decimal.FormatNat(k);
    NoSlash(k);
    CutAtSlash(host, bits);
    BitsExactly(bits, Width(a), k);
    if ReadBits(bits, Width(a)).Some? {
      var other := ReadBits(bits, Width(a)).value;
      BitsExactly(bits, Width(a), other);
      Decimal.ValueOfFormat(k);
      Decimal.ValueOfFormat(other);
    }
  }

  /** Nothing else is a network: an address without a zone, a slash, and a printed prefix length. */
  lemma PrefixExactly(cidr: string) returns (host: string, k: nat)
    requires ReadPrefix(cidr).Some?
    ensures cidr == host + "/" + Decimal.FormatNat(k)
    ensures ReadAddr(host).Some? && (ReadAddr(host).value.V6? ==> ReadAddr(host).value.zone == "")
    ensures k <= Width(ReadAddr(host).value)
  {
    hide ReadAddr, ReadBits, IndexOf, Masked, Decimal.FormatNat, LastIndexOf;
    var slash := LastIndexOf(cidr, '/');
    LastIndexFacts(cidr, '/');
    host := cidr[..slash];
    var width := Width(ReadAddr(host).value);
    k := ReadBits(cidr[slash + 1..], width).value;
    BitsExactly(cidr[slash + 1..], width, k);
    assert cidr == host + "/" + cidr[slash + 1..];
  }

  // ---- the octet scan ----

  lemma OctetSeen(host: string, a: Addr, mask: string)
    requires ReadAddr(host) == Some(a) && '/' !in host && '/' !in mask
    ensures LastOctet(host + "/" + mask) ==
            if !IsMask(mask, Width(a)) || (a.V6? && (a.zone != "" || a.n / 0x1_0000_0000 != 0xFFFF)) then None
            else Some(a.n % 256)
  {
    hide ReadAddr, IndexOf, LastIndexOf, IsMask;
    CutAtSlash(host, mask);
  }

  /** The scan sees the last number of a dotted address, under any mask up to 32. */
  lemma DottedOctet(a: nat, b: nat, c: nat, d: nat, mask: string)
    requires a <= 255 && b <= 255 && c <= 255 && d <= 255 && '/' !in mask
    ensures LastOctet(Dotted(a, b, c, d) + "/" + mask) ==
            if mask != "" && Decimal.AllDigits(mask) && Decimal.DigitsValue(mask) <= 32 then Some(d) else None
  {
    hide ReadAddr, Dotted, ReadDotted, LastOctet;
    var host := Dotted(a, b, c, d);
    DottedReads(a, b, c, d);
    AddressExactly(host, Number(a, b, c, d));
    DottedNotation(a, b, c, d);
    assert !Decimal.IsDigit('/');
    OctetSeen(host, V4(Number(a, b, c, d)), mask);
  }

  /** Of a colon address it sees the last octet exactly if the address is IPv4-mapped, under any mask up to 128. */
  lemma MappedOctet(host: string, n: nat, mask: string)
    requires ReadAddr(host) == Some(V6(n, "")) && '/' !in mask && '/' !in host
    ensures LastOctet(host + "/" + mask) ==
            if mask != "" && Decimal.AllDigits(mask) && Decimal.DigitsValue(mask) <= 128 &&
               0xFFFF_0000_0000 <= n < 0x1_0000_0000_0000 then Some(n % 256) else None
  {
    hide ReadAddr, LastOctet;
    OctetSeen(host, V6(n, ""), mask);
    assert n / 0x1_0000_0000 == 0xFFFF <==> 0xFFFF_0000_0000 <= n < 0x1_0000_0000_0000;
  }

  /** It sees nothing in a text without a slash, without an address in front of it, or with a zone. */
  lemma NoOctet(cidr: string)
    requires LastOctet(cidr).Some?
    ensures exists host, mask :: cidr == host + "/" + mask && ReadAddr(host).Some? &&
                                 (ReadAddr(host).value.V6? ==> ReadAddr(host).value.zone == "")
  {
    hide ReadAddr;
    var slash := IndexOf(cidr, '/');
    assert cidr == cidr[..slash] + "/" + cidr[slash + 1..];
  }

  // ---- endpoints ----

  /** An IPv6 address in brackets. */
  ghost predicate BracketsV6(host: string) {
    exists inner :: host == "[" + inner + "]" && IsV6(ReadAddr(inner))
  }

  lemma BracketedHost(host: string)
    requires host != "" && host[0] == '['
    ensures ReadDotted(host).None?
    ensures BracketsV6(host) <==> |host| >= 2 && host[|host| - 1] == ']' && IsV6(ReadAddr(host[1..|host| - 1]))
  {
    hide ReadAddr, ReadDotted;
    if ReadDotted(host).Some? {
      DottedChars(host, '[');
      assert false;
    }
    if |host| >= 2 && host[|host| - 1] == ']' {
      assert host == "[" + host[1..|host| - 1] + "]";
    }
    forall inner | host == "[" + inner + "]" ensures host[1..|host| - 1] == inner {
    }
  }

  lemma PlainHost(host: string)
    requires host == "" || host[0] != '['
    ensures !BracketsV6(host)
    ensures ReadDotted(host).Some? <==> ReadAddr(host).Some? && !IsV6(ReadAddr(host))
    ensures ReadDotted("").None?
  {
    hide ReadAddr, ReadDotted;
    if ReadDotted(host).Some? {
      AddressExactly(host, ReadDotted(host).value);
    } else if ReadAddr(host).Some? && !IsV6(ReadAddr(host)) {
      AddressExactly(host, ReadAddr(host).value.n);
    }
    EmptyIsNotDotted();
  }

  lemma EmptyIsNotDotted()
    ensures ReadDotted("").None?
  {
    SplitWhole("", '.');
  }

  /** A port is digits up to 65535 behind the last colon; an address needs brackets exactly if it is IPv6. */
  lemma EndpointExactly(host: string, port: string)
    requires ':' !in port
    ensures IsEndpoint(host + ":" + port) <==>
            port != "" && Decimal.AllDigits(port) && Decimal.DigitsValue(port) <= 65535 &&
            (ReadDotted(host).Some? || BracketsV6(host))
  {
    hide ReadAddr, LastIndexOf, ReadDotted;
    var s := host + ":" + port;
    assert s == host + [':'] + port;
    LastIndexAt(host, ':', port);
    assert s[|host| + 1..] == port && s[..|host|] == host;
    if host != "" && host[0] == '[' {
      BracketedHost(host);
    } else {
      PlainHost(host);
    }
  }
}
